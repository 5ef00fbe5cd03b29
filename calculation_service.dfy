/**
  `CalculationService.calculate_expenses`: per-person totals, their sum, the
  average, each person's balance against the average, the split into
  debtors and creditors, and the greedy settlement between them; and the
  empty-input rule of the two `format_*` helpers.
 */
module CalculationService {
  import opened Ledger
  import opened Settlement
  import opened Sorting
  import opened Decimal
  import opened Report
  import opened Seqs

  /** The `ExpenseCalculation` dataclass. Dicts are entry sequences with
      distinct persons; `creditors` is the list as the settlement loop left
      it, i.e. what each creditor still has to receive. */
  datatype ExpenseCalculation = ExpenseCalculation(
    totalByPerson: seq<Entry>,
    totalSum: real,
    peopleCount: nat,
    average: real,
    balanceByPerson: seq<Entry>,
    debtors: seq<Entry>,
    creditors: seq<Entry>,
    payments: seq<Payment>)

  /** What `calculate_expenses` returns for no records, without dividing. */
  const NO_EXPENSES := ExpenseCalculation([], 0.0, 0, 0.0, [], [], [], [])

  /** `{person: total_by_person[person] - average for person in people}`. */
  function Balances(totals: seq<Entry>, average: real): seq<Entry>
    decreases |totals|
  {
    if |totals| == 0 then []
    else [Entry(totals[0].person, totals[0].amount - average)] + Balances(totals[1..], average)
  }

  /** The filter of the debtors (`debit`) or creditors comprehension. */
  predicate OnSide(balance: real, debit: bool) {
    if debit then balance < 0.0 else balance > 0.0
  }

  /** `[(person, -balance) for ... if balance < 0]` when `debit`, else
      `[(person, balance) for ... if balance > 0]`. */
  function Side(balances: seq<Entry>, debit: bool): seq<Entry>
    decreases |balances|
  {
    if |balances| == 0 then []
    else
      var b := balances[0];
      (if OnSide(b.amount, debit) then [Entry(b.person, if debit then -b.amount else b.amount)] else [])
        + Side(balances[1..], debit)
  }

  function Debtors(balances: seq<Entry>): seq<Entry> {
    Side(balances, true)
  }

  function Creditors(balances: seq<Entry>): seq<Entry> {
    Side(balances, false)
  }

  /** The records' totals dict is not empty when there is a record. */
  lemma TotalsNonEmpty(records: seq<Record>)
    requires |records| > 0
    ensures |TotalsOf(Contributions(records))| > 0
  {
    TotalsKeys(Contributions(records));
    assert Persons(Contributions(records))[0] == records[0].person;
  }

  /** `calculate_expenses(records)`. */
  function Calculation(records: seq<Record>): ExpenseCalculation {
    if |records| == 0 then NO_EXPENSES
    else
      TotalsNonEmpty(records);
      CalculationOf(TotalsOf(Contributions(records)))
  }

  /** `total_sum / people_count`. */
  function Average(totals: seq<Entry>): real
    requires |totals| > 0
  {
    Sum(totals) / (|totals| as real)
  }

  /** The balances against the average. */
  function BalancesOf(totals: seq<Entry>): seq<Entry>
    requires |totals| > 0
  {
    Balances(totals, Average(totals))
  }

  /** The settlement of the debtors against the creditors. */
  function OutcomeOf(totals: seq<Entry>): Outcome
    requires |totals| > 0
  {
    Settle(Debtors(BalancesOf(totals)), Creditors(BalancesOf(totals)))
  }

  /** What `calculate_expenses` computes from a non-empty totals dict. */
  function CalculationOf(totals: seq<Entry>): ExpenseCalculation
    requires |totals| > 0
  {
    ExpenseCalculation(totals, Sum(totals), |totals|, Average(totals), BalancesOf(totals),
                       Debtors(BalancesOf(totals)), OutcomeOf(totals).creditors, OutcomeOf(totals).payments)
  }

  /** Calculation for records is the calculation of their totals dict. */
  lemma CalculationUnfold(records: seq<Record>)
    requires |records| > 0
    ensures |TotalsOf(Contributions(records))| > 0
    ensures Calculation(records) == CalculationOf(TotalsOf(Contributions(records)))
  {
    TotalsNonEmpty(records);
  }

  /** `calculate_expenses`, with its accumulation loop and its nested
      settlement loop over a mutable creditors list. */
  method CalculateExpenses(records: seq<Record>) returns (r: ExpenseCalculation)
    ensures r == Calculation(records)
  {
    if |records| == 0 {
      return NO_EXPENSES;
    }
    var totalByPerson := Accumulate(Contributions(records));
    TotalsNonEmpty(records);
    var people := Persons(totalByPerson);
    var totalSum := Sum(totalByPerson);
    var average := totalSum / (|people| as real);
    var balanceByPerson := Balances(totalByPerson, average);
    var debtors := Debtors(balanceByPerson);
    var initial := Creditors(balanceByPerson);
    var creditors := new Entry[|initial|](i requires 0 <= i < |initial| => initial[i]);
    assert creditors[..] == initial;
    var payments := SettleInPlace(debtors, creditors);
    r := ExpenseCalculation(totalByPerson, totalSum, |people|, average, balanceByPerson,
                            debtors, creditors[..], payments);
    CalculationUnfold(records);
  }

  // ----- Balances, debtors and creditors -----

  lemma PersonsConcat(a: seq<Entry>, b: seq<Entry>)
    ensures Persons(a + b) == Persons(a) + Persons(b)
  {
  }

  /** The balances dict has the totals dict's keys, in the same order. */
  lemma {:induction false} BalancesPersons(totals: seq<Entry>, average: real)
    ensures Persons(Balances(totals, average)) == Persons(totals)
    decreases |totals|
  {
    if |totals| > 0 {
      var t := totals[0];
      BalancesPersons(totals[1..], average);
      PersonsCons(Entry(t.person, t.amount - average), Balances(totals[1..], average));
      PersonsCons(t, totals[1..]);
      assert totals == [t] + totals[1..];
    }
  }

  /** Each person's balance is their total minus the average. */
  lemma {:induction false} BalancesGet(totals: seq<Entry>, average: real, p: string)
    requires p in Persons(totals)
    ensures Get(Balances(totals, average), p) == Get(totals, p) - average
    decreases |totals|
  {
    if totals[0].person != p {
      assert Persons(totals[1..]) == Persons(totals)[1..];
      BalancesGet(totals[1..], average, p);
    }
  }

  /** The balances add up to the totals' sum less the average once per person. */
  lemma {:induction false} BalancesSum(totals: seq<Entry>, average: real)
    ensures Sum(Balances(totals, average)) == Sum(totals) - (|totals| as real) * average
    decreases |totals|
  {
    if |totals| > 0 {
      var t := totals[0];
      var rest := Balances(totals[1..], average);
      BalancesSum(totals[1..], average);
      assert ([Entry(t.person, t.amount - average)] + rest)[1..] == rest;
    }
  }

  /** Debtors and creditors are dicts holding exactly the persons whose
      balance is on that side. */
  lemma SideMembers(balances: seq<Entry>, debit: bool)
    requires IsDict(balances)
    ensures IsDict(Side(balances, debit))
    ensures forall p :: p in Persons(Side(balances, debit)) <==>
      p in Persons(balances) && OnSide(Get(balances, p), debit)
  {
    SideDict(balances, debit);
    SideKeys(balances, debit);
  }

  /** A side of a dict has no key twice. */
  lemma {:induction false} SideDict(balances: seq<Entry>, debit: bool)
    requires IsDict(balances)
    ensures IsDict(Side(balances, debit))
    decreases |balances|
  {
    if |balances| > 0 {
      var b, rest := balances[0], balances[1..];
      var head := if OnSide(b.amount, debit) then [Entry(b.person, if debit then -b.amount else b.amount)] else [];
      var s, tail := Side(balances, debit), Side(rest, debit);
      DictTail(balances);
      SideDict(rest, debit);
      SideKeys(rest, debit);
      assert s == head + tail;
      if head != [] {
        PersonsConcat(head, tail);
        DistinctCons(b.person, Persons(tail));
      }
    }
  }

  /** A new name in front of names without repeats gives names without
      repeats. */
  lemma DistinctCons(x: string, xs: seq<string>)
    requires Distinct(xs) && x !in xs
    ensures Distinct([x] + xs)
  {
    forall i, j | 0 <= i < j < |xs| + 1 ensures ([x] + xs)[i] != ([x] + xs)[j] {
      assert ([x] + xs)[j] == xs[j - 1];
      if i > 0 {
        assert ([x] + xs)[i] == xs[i - 1];
      }
    }
  }

  /** A key is on a side of a dict exactly when its balance is. */
  lemma {:induction false} SideKeys(balances: seq<Entry>, debit: bool)
    requires IsDict(balances)
    ensures forall p :: p in Persons(Side(balances, debit)) <==>
      p in Persons(balances) && OnSide(Get(balances, p), debit)
    decreases |balances|
  {
    if |balances| > 0 {
      var b, rest := balances[0], balances[1..];
      var head := if OnSide(b.amount, debit) then [Entry(b.person, if debit then -b.amount else b.amount)] else [];
      var s, tail := Side(balances, debit), Side(rest, debit);
      DictTail(balances);
      SideKeys(rest, debit);
      assert s == head + tail;
      PersonsConcat(head, tail);
      HeadSplit(Persons(balances));
      assert Persons(head) == if OnSide(b.amount, debit) then [b.person] else [];
      forall p ensures p in Persons(s) <==> p in Persons(balances) && OnSide(Get(balances, p), debit) {
        if p == b.person {
          assert p !in Persons(tail);
          assert Get(balances, p) == b.amount;
        } else {
          assert p in Persons(s) <==> p in Persons(tail);
          assert p in Persons(balances) <==> p in Persons(rest);
          assert Get(balances, p) == Get(rest, p);
        }
      }
    }
  }

  /** Each debtor's or creditor's amount is the size of its balance, and so
      positive. */
  lemma {:induction false} SideAmounts(balances: seq<Entry>, debit: bool)
    requires IsDict(balances)
    ensures Positive(Side(balances, debit))
    ensures forall k :: 0 <= k < |Side(balances, debit)| ==>
      Side(balances, debit)[k].amount == Abs(Get(balances, Side(balances, debit)[k].person))
    decreases |balances|
  {
    if |balances| > 0 {
      var b, rest := balances[0], balances[1..];
      var head := if OnSide(b.amount, debit) then [Entry(b.person, if debit then -b.amount else b.amount)] else [];
      var s, tail := Side(balances, debit), Side(rest, debit);
      DictTail(balances);
      SideAmounts(rest, debit);
      SideMembers(rest, debit);
      assert s == head + tail;
      forall k | 0 <= k < |s|
        ensures s[k].amount > 0.0 && s[k].amount == Abs(Get(balances, s[k].person))
      {
        if k >= |head| {
          assert s[k] == tail[k - |head|];
          assert Persons(tail)[k - |head|] == s[k].person;
        }
      }
    }
  }

  /** Putting a new first name in front of a list, and possibly in front of
      its keys, keeps the keys in first-seen order. */
  lemma FirstSeenOrderCons(keys: seq<string>, ps: seq<string>, x: string, head: seq<string>)
    requires FirstSeenOrder(keys, ps) && x !in ps && (head == [] || head == [x])
    ensures FirstSeenOrder(head + keys, [x] + ps)
  {
    var ks, qs := head + keys, [x] + ps;
    forall q | q in ps ensures FirstIndex(qs, q) == 1 + FirstIndex(ps, q) {
      FirstIndexCons(x, ps, q);
    }
    assert FirstIndex(qs, x) == 0;
    if head == [] {
      assert ks == keys;
    } else {
      forall i, j | 0 <= i < j < |ks| ensures FirstIndex(qs, ks[i]) < FirstIndex(qs, ks[j]) {
        ConsAt(x, keys, j);
        if i > 0 {
          ConsAt(x, keys, i);
        }
      }
    }
  }

  /** Past its head, a list with a new head holds the old list. */
  lemma ConsAt(x: string, keys: seq<string>, j: nat)
    requires 0 < j <= |keys|
    ensures ([x] + keys)[j] == keys[j - 1]
  {
  }

  /** Debtors and creditors keep the order of the balances dict. */
  lemma {:induction false} SideOrder(balances: seq<Entry>, debit: bool)
    requires IsDict(balances)
    ensures FirstSeenOrder(Persons(Side(balances, debit)), Persons(balances))
    decreases |balances|
  {
    if |balances| > 0 {
      var b, rest := balances[0], balances[1..];
      var head := if OnSide(b.amount, debit) then [Entry(b.person, if debit then -b.amount else b.amount)] else [];
      var tail := Side(rest, debit);
      DictTail(balances);
      SideOrder(rest, debit);
      assert Side(balances, debit) == head + tail;
      PersonsConcat(head, tail);
      assert Persons(balances) == [b.person] + Persons(rest);
      FirstSeenOrderCons(Persons(tail), Persons(rest), b.person, Persons(head));
    }
  }

  /** What the creditors are owed less what the debtors owe is the sum of
      the balances; nobody is both a debtor and a creditor. */
  lemma {:induction false} SideSums(balances: seq<Entry>)
    ensures Sum(Creditors(balances)) - Sum(Debtors(balances)) == Sum(balances)
    ensures |Debtors(balances)| + |Creditors(balances)| <= |balances|
    decreases |balances|
  {
    if |balances| > 0 {
      var b, rest := balances[0], balances[1..];
      SideSums(rest);
      var dh := if b.amount < 0.0 then [Entry(b.person, -b.amount)] else [];
      var ch := if b.amount > 0.0 then [Entry(b.person, b.amount)] else [];
      assert Debtors(balances) == dh + Debtors(rest);
      assert Creditors(balances) == ch + Creditors(rest);
      SumConcat(dh, Debtors(rest));
      SumConcat(ch, Creditors(rest));
    }
  }

  // ----- What calculate_expenses computes -----

  /** The result counts no people exactly when there are no records. */
  lemma CalculationEmpty(records: seq<Record>)
    ensures Calculation(records).peopleCount == 0 <==> |records| == 0
    ensures |records| == 0 ==> Calculation(records) == NO_EXPENSES
  {
    if |records| > 0 {
      TotalsNonEmpty(records);
    }
  }

  /** `total_by_person` has one key per distinct payer, in the order payers
      first appear; each key's total is the sum of exactly that payer's
      values; `total_sum` is the sum of all values; `people_count` is the
      number of keys. */
  lemma CalculationTotals(records: seq<Record>)
    ensures var r := Calculation(records);
      && IsDict(r.totalByPerson)
      && r.peopleCount == |r.totalByPerson|
      && (forall p :: p in Persons(r.totalByPerson) <==>
            exists i :: 0 <= i < |records| && records[i].person == p)
      && (forall p :: Get(r.totalByPerson, p) == SumFor(Contributions(records), p))
      && FirstSeenOrder(Persons(r.totalByPerson), Persons(Contributions(records)))
      && r.totalSum == Sum(Contributions(records))
  {
    var cs := Contributions(records);
    if |records| > 0 {
      CalculationUnfold(records);
      TotalsKeys(cs);
      TotalsKeyOrder(cs);
      TotalsSum(cs);
      forall p ensures Get(TotalsOf(cs), p) == SumFor(cs, p) {
        TotalsValues(cs, p);
      }
      forall p ensures p in Persons(cs) <==> exists i :: 0 <= i < |records| && records[i].person == p {
        if p in Persons(cs) {
          var i :| 0 <= i < |cs| && Persons(cs)[i] == p;
          assert records[i].person == p;
        }
        if exists i :: 0 <= i < |records| && records[i].person == p {
          var i :| 0 <= i < |records| && records[i].person == p;
          assert Persons(cs)[i] == p;
        }
      }
    }
  }

  /** Against their own average, balances add up to zero. */
  lemma BalancesSumZero(totals: seq<Entry>, average: real)
    requires |totals| > 0 && average == Sum(totals) / (|totals| as real)
    ensures Sum(Balances(totals, average)) == 0.0
  {
    BalancesSum(totals, average);
    AverageTimesCount(average, Sum(totals), |totals| as real);
  }

  /** The average times the number of people is the total. */
  lemma AverageTimesPeople(totals: seq<Entry>)
    requires |totals| > 0
    ensures Average(totals) * (|totals| as real) == Sum(totals)
  {
    AverageTimesCount(Average(totals), Sum(totals), |totals| as real);
  }

  lemma AverageTimesCount(average: real, sum: real, n: real)
    requires n > 0.0 && average == sum / n
    ensures average * n == sum && n * average == sum
  {
  }

  /** `balance_by_person` has the same keys, each person's balance is their
      total minus the average, and the balances add up to exactly zero. */
  lemma CalculationBalances(records: seq<Record>)
    ensures var r := Calculation(records);
      && Persons(r.balanceByPerson) == Persons(r.totalByPerson)
      && IsDict(r.balanceByPerson)
      && (forall p :: p in Persons(r.totalByPerson) ==>
            Get(r.balanceByPerson, p) == Get(r.totalByPerson, p) - r.average)
      && Sum(r.balanceByPerson) == 0.0
  {
    var r := Calculation(records);
    if |records| > 0 {
      var totals := TotalsOf(Contributions(records));
      CalculationUnfold(records);
      TotalsKeys(Contributions(records));
      BalancesPersons(r.totalByPerson, r.average);
      BalancesSumZero(totals, r.average);
      forall p | p in Persons(r.totalByPerson)
        ensures Get(r.balanceByPerson, p) == Get(r.totalByPerson, p) - r.average
      {
        BalancesGet(r.totalByPerson, r.average, p);
      }
    }
  }

  /** `debtors` holds exactly the people with a negative balance, each with
      what it owes; the creditors comprehension holds exactly those with a
      positive balance, each with what it is owed; both are dicts of positive
      amounts and the two owe and are owed the same. */
  lemma CalculationSides(records: seq<Record>)
    ensures var r := Calculation(records);
      var ds, cs := r.debtors, Creditors(r.balanceByPerson);
      SidesOf(r.balanceByPerson, ds, cs) && |ds| + |cs| <= r.peopleCount
  {
    var r := Calculation(records);
    if |records| > 0 {
      CalculationBalances(records);
      CalculationTotals(records);
      CalculationUnfold(records);
      assert r.debtors == Debtors(r.balanceByPerson) && r.peopleCount == |r.balanceByPerson|;
      BalanceSides(r.balanceByPerson);
    } else {
      CalculationEmpty(records);
    }
  }

  /** `ds` and `cs` are the debtors and creditors of the balances `bs`: dicts
      of positive amounts holding exactly the people with a negative
      (positive) balance, each with what it owes (is owed), owing and owed
      the same in total. */
  ghost predicate SidesOf(bs: seq<Entry>, ds: seq<Entry>, cs: seq<Entry>) {
    && IsDict(ds) && IsDict(cs) && Positive(ds) && Positive(cs)
    && (forall p :: p in Persons(ds) <==> p in Persons(bs) && Get(bs, p) < 0.0)
    && (forall p :: p in Persons(cs) <==> p in Persons(bs) && Get(bs, p) > 0.0)
    && (forall k :: 0 <= k < |ds| ==> ds[k].amount == -Get(bs, ds[k].person))
    && (forall k :: 0 <= k < |cs| ==> cs[k].amount == Get(bs, cs[k].person))
    && Sum(ds) == Sum(cs)
  }

  /** The two sides of a balances dict whose balances add up to zero. */
  lemma BalanceSides(bs: seq<Entry>)
    requires IsDict(bs) && Sum(bs) == 0.0
    ensures SidesOf(bs, Debtors(bs), Creditors(bs))
    ensures |Debtors(bs)| + |Creditors(bs)| <= |bs|
  {
    SideMembers(bs, true);
    SideMembers(bs, false);
    SideAmounts(bs, true);
    SideAmounts(bs, false);
    SideSums(bs);
  }

  /** Debtors and creditors are listed in the order of the balances dict,
      which is the order payers first appear. */
  lemma CalculationSideOrder(records: seq<Record>)
    ensures var r := Calculation(records);
      var bs := r.balanceByPerson;
      FirstSeenOrder(Persons(r.debtors), Persons(bs)) && FirstSeenOrder(Persons(Creditors(bs)), Persons(bs))
  {
    var r := Calculation(records);
    CalculationBalances(records);
    SideOrder(r.balanceByPerson, true);
    SideOrder(r.balanceByPerson, false);
  }

  /** The payments: each is a positive amount from a debtor to a creditor,
      never to itself; each debtor pays exactly what it owes; they come
      debtor by debtor in the debtors' order, and within a debtor in the
      creditors' order. */
  lemma CalculationPayments(records: seq<Record>)
    requires |records| > 0
    ensures var r := Calculation(records);
      var ds, cs, ps := r.debtors, Creditors(r.balanceByPerson), r.payments;
      && (forall k :: 0 <= k < |ps| ==>
            ps[k].amount > 0.0 && ps[k].debtor in Persons(ds) && ps[k].creditor in Persons(cs)
            && ps[k].debtor != ps[k].creditor)
      && (forall k :: 0 <= k < |ds| ==> PaidBy(ps, ds[k].person) == ds[k].amount)
      && InSettleOrder(ps, Persons(ds), Persons(cs))
  {
    var r := Calculation(records);
    var ds, cs := r.debtors, Creditors(r.balanceByPerson);
    CalculationSides(records);
    OpenPositive(ds);
    OpenPositive(cs);
    SettleNames(ds, cs);
    SettleFull(ds, cs);
    SettleOrder(ds, cs);
  }

  /** The creditors: each receives exactly what it was owed, so the returned
      creditors list, which the loop updated in place, is all zeros. */
  lemma CalculationCreditors(records: seq<Record>)
    requires |records| > 0
    ensures var r := Calculation(records);
      var cs, ps := Creditors(r.balanceByPerson), r.payments;
      && Persons(r.creditors) == Persons(cs)
      && (forall j :: 0 <= j < |cs| ==>
            r.creditors[j].amount == 0.0 && ReceivedBy(ps, cs[j].person) == cs[j].amount)
  {
    var r := Calculation(records);
    var ds, cs := r.debtors, Creditors(r.balanceByPerson);
    var out := Settle(ds, cs);
    CalculationSides(records);
    OpenPositive(ds);
    OpenPositive(cs);
    SettleNames(ds, cs);
    SettleTotal(ds, cs);
    SettleBounds(ds, cs);
    SettleReceived(ds, cs);
    OpenZero(out.creditors);
  }

  /** There are fewer payments than people, and fewer than debtors plus
      creditors when anyone owes. */
  lemma CalculationCount(records: seq<Record>)
    requires |records| > 0
    ensures var r := Calculation(records);
      var ds, cs, ps := r.debtors, Creditors(r.balanceByPerson), r.payments;
      && |ps| < r.peopleCount
      && (|ds| > 0 ==> |ps| < |ds| + |cs|)
  {
    var r := Calculation(records);
    var ds, cs := r.debtors, Creditors(r.balanceByPerson);
    CalculationEmpty(records);
    CalculationSides(records);
    OpenPositive(ds);
    OpenPositive(cs);
    SettleCount(ds, cs);
  }

  // ----- format_summary_text and format_totals_text -----

  /** The person lines of `format_summary_text`: the totals by name, each
      with the balance stored for that person. */
  function SummaryPersonLines(calculation: ExpenseCalculation, money: real -> string): (lines: seq<string>)
    ensures |lines| == |calculation.totalByPerson|
  {
    var items := SortedItems(calculation.totalByPerson);
    seq(|items|, i requires 0 <= i < |items| =>
      PersonLine(items[i].person, items[i].amount, Get(calculation.balanceByPerson, items[i].person), money))
  }

  /** `format_summary_text(calculation, month, year, title)`. */
  function SummaryText(calculation: ExpenseCalculation, month: nat, year: nat, title: string,
                       money: real -> string): string
  {
    if calculation.peopleCount == 0 then NO_EXPENSES_TEXT
    else
      Summary(SummaryHeader(title, month, year, calculation.totalSum, calculation.peopleCount, calculation.average, money),
              SummaryPersonLines(calculation, money), PaymentLines(calculation.payments, money))
  }

  /** `format_summary_text`, appending the person lines and then the
      payment lines one by one. */
  method FormatSummaryText(calculation: ExpenseCalculation, month: nat, year: nat, title: string,
                           money: real -> string) returns (text: string)
    ensures text == SummaryText(calculation, month, year, title, money)
  {
    if calculation.peopleCount == 0 {
      return NO_EXPENSES_TEXT;
    }
    text := SummaryHeader(title, month, year, calculation.totalSum, calculation.peopleCount,
                          calculation.average, money);
    text := AppendLines(text, SummaryPersonLines(calculation, money));
    if |calculation.payments| > 0 {
      text := text + PAYMENTS_HEADING;
      text := AppendLines(text, PaymentLines(calculation.payments, money));
    }
  }

  /** `format_totals_text(calculation)`. */
  function TotalsText(calculation: ExpenseCalculation, money: real -> string): string {
    if calculation.peopleCount == 0 then NO_EXPENSES_TEXT
    else
      TotalsReply(TotalLines(SortedItems(calculation.totalByPerson), money),
                  BalanceLines(SortedItems(calculation.balanceByPerson), money),
                  PaymentTexts(calculation.payments, money))
  }

  /** Both `format_*` helpers reply "Nenhum gasto encontrado." exactly when
      the calculation counts no people. */
  lemma FormatEmptyRule(calculation: ExpenseCalculation, month: nat, year: nat, title: string, money: real -> string)
    ensures SummaryText(calculation, month, year, title, money) == NO_EXPENSES_TEXT <==> calculation.peopleCount == 0
    ensures TotalsText(calculation, money) == NO_EXPENSES_TEXT <==> calculation.peopleCount == 0
  {
    if calculation.peopleCount > 0 {
      var header := SummaryHeader(title, month, year, calculation.totalSum, calculation.peopleCount, calculation.average, money);
      SummaryNotEmptyReply(header, SummaryPersonLines(calculation, money), PaymentLines(calculation.payments, money));
      TotalsReplyNotEmptyReply(TotalLines(SortedItems(calculation.totalByPerson), money),
                               BalanceLines(SortedItems(calculation.balanceByPerson), money),
                               PaymentTexts(calculation.payments, money));
    }
  }

  /** The `i`-th line of each totals-reply part: the `i`-th name in sorted
      order, one of the payers, with the sum of that person's values, and in
      the balances part that sum less the average. */
  lemma TotalsTextLine(records: seq<Record>, money: real -> string, i: nat)
    requires i < |Calculation(records).totalByPerson|
    ensures var c := Calculation(records);
      var names := Sort(Persons(c.totalByPerson));
      var total := SumFor(Contributions(records), names[i]);
      && StrictlyAscending(names)
      && (exists k :: 0 <= k < |records| && records[k].person == names[i])
      && TotalLines(SortedItems(c.totalByPerson), money)[i] == TotalLine(Entry(names[i], total), money)
      && i < |BalanceLines(SortedItems(c.balanceByPerson), money)|
      && BalanceLines(SortedItems(c.balanceByPerson), money)[i]
         == BalanceLine(Entry(names[i], total - c.average), money)
  {
    var c := Calculation(records);
    CalculationKeys(records);
    SortedLine(c.totalByPerson, c.balanceByPerson, money, i);
    CalculationPayer(records, Sort(Persons(c.totalByPerson))[i]);
  }

  /** The totals are a dict and the balances have its keys. */
  lemma CalculationKeys(records: seq<Record>)
    ensures var c := Calculation(records);
      IsDict(c.totalByPerson) && Persons(c.balanceByPerson) == Persons(c.totalByPerson)
  {
    CalculationTotals(records);
    CalculationBalances(records);
  }

  /** A key of the totals is a payer, with the sum of that payer's values,
      and a balance of that sum less the average. */
  lemma CalculationPayer(records: seq<Record>, p: string)
    requires p in Persons(Calculation(records).totalByPerson)
    ensures var c := Calculation(records);
      && (exists k :: 0 <= k < |records| && records[k].person == p)
      && Get(c.totalByPerson, p) == SumFor(Contributions(records), p)
      && Get(c.balanceByPerson, p) == SumFor(Contributions(records), p) - c.average
  {
    CalculationTotals(records);
    CalculationBalances(records);
  }

  /** The `i`-th sorted total and balance lines of two dicts with the same
      keys. */
  lemma SortedLine(totals: seq<Entry>, balances: seq<Entry>, money: real -> string, i: nat)
    requires IsDict(totals) && Persons(balances) == Persons(totals) && i < |totals|
    ensures var names := Sort(Persons(totals));
      && StrictlyAscending(names) && names[i] in Persons(totals)
      && TotalLines(SortedItems(totals), money)[i] == TotalLine(Entry(names[i], Get(totals, names[i])), money)
      && i < |BalanceLines(SortedItems(balances), money)|
      && BalanceLines(SortedItems(balances), money)[i] == BalanceLine(Entry(names[i], Get(balances, names[i])), money)
  {
    var names := Sort(Persons(totals));
    SortDistinct(Persons(totals));
    assert names[i] in Persons(totals);
    assert SortedItems(totals)[i] == Entry(names[i], Get(totals, names[i]));
    assert SortedItems(balances)[i] == Entry(names[i], Get(balances, names[i]));
  }

  /** For records, the totals reply is made of the sorted total and balance
      lines and the payment texts, and the payments part is "Todos estão
      quitados!" exactly when every person spent the average. */
  lemma TotalsTextSettled(records: seq<Record>, money: real -> string)
    requires |records| > 0
    ensures var c := Calculation(records);
      TotalsText(c, money) == TotalsReply(TotalLines(SortedItems(c.totalByPerson), money),
                                          BalanceLines(SortedItems(c.balanceByPerson), money),
                                          PaymentTexts(c.payments, money))
    ensures var c := Calculation(records);
      |PaymentTexts(c.payments, money)| == 0
      <==> forall p :: p in Persons(c.totalByPerson) ==> Get(c.totalByPerson, p) == c.average
  {
    CalculationTotals(records);
    CalculationSettled(records);
  }

  /** The settlement pays nothing exactly when every person spent the
      average. */
  lemma CalculationSettled(records: seq<Record>)
    requires |records| > 0
    ensures var r := Calculation(records);
      r.payments == [] <==> forall p :: p in Persons(r.totalByPerson) ==> Get(r.totalByPerson, p) == r.average
  {
    var r := Calculation(records);
    var bs := r.balanceByPerson;
    CalculationBalances(records);
    CalculationSides(records);
    CalculationPayments(records);
    NoPaymentsSides(bs, r.debtors, Creditors(bs), r.payments);
    if forall p :: p in Persons(r.totalByPerson) ==> Get(r.totalByPerson, p) == r.average {
      ZeroBalancesSides(bs);
      CalculationUnfold(records);
      assert r.payments == Settle([], []).payments;
    }
  }

  /** Without payments, sides paid in full leave every balance at zero. */
  lemma NoPaymentsSides(bs: seq<Entry>, ds: seq<Entry>, cs: seq<Entry>, ps: seq<Payment>)
    requires SidesOf(bs, ds, cs)
    requires forall k :: 0 <= k < |ds| ==> PaidBy(ps, ds[k].person) == ds[k].amount
    ensures ps == [] ==> forall p :: p in Persons(bs) ==> Get(bs, p) == 0.0
  {
    DebtorsPaid(ds, ps);
    SumPositive(cs);
  }

  /** A dict of zero balances puts no one on either side. */
  lemma ZeroBalancesSides(bs: seq<Entry>)
    requires IsDict(bs) && forall p :: p in Persons(bs) ==> Get(bs, p) == 0.0
    ensures Debtors(bs) == [] && Creditors(bs) == []
  {
    forall i | 0 <= i < |bs| ensures bs[i].amount == 0.0 {
      assert Persons(bs)[i] == bs[i].person;
      GetAt(bs, i);
    }
    SideOfZeros(bs, true);
    SideOfZeros(bs, false);
  }

  /** Debtors who each paid a positive amount left a payment behind. */
  lemma DebtorsPaid(ds: seq<Entry>, ps: seq<Payment>)
    requires Positive(ds)
    requires forall k :: 0 <= k < |ds| ==> PaidBy(ps, ds[k].person) == ds[k].amount
    ensures ps == [] ==> ds == []
  {
    if |ds| > 0 {
      assert PaidBy(ps, ds[0].person) > 0.0;
    }
  }

  /** Positive amounts add up to a positive sum. */
  lemma SumPositive(es: seq<Entry>)
    requires Positive(es)
    ensures |es| > 0 ==> Sum(es) > 0.0
  {
    if |es| > 0 {
      OpenPositive(es);
      assert NonNegative(es[1..]) by {
        forall i | 0 <= i < |es| - 1 ensures es[1..][i].amount >= 0.0 {
          assert es[1..][i] == es[i + 1];
        }
      }
      SumNonNegative(es[1..]);
    }
  }

  /** All-zero balances put no one on either side. */
  lemma {:induction false} SideOfZeros(bs: seq<Entry>, debit: bool)
    requires forall i :: 0 <= i < |bs| ==> bs[i].amount == 0.0
    ensures Side(bs, debit) == []
    decreases |bs|
  {
    if |bs| > 0 {
      assert forall i :: 0 <= i < |bs| - 1 ==> bs[1..][i] == bs[i + 1];
      SideOfZeros(bs[1..], debit);
    }
  }

  /** For a calculation of records, the summary's person lines are the
      totals by name, each against the average, as the save and load
      replies write them. */
  lemma SummaryPersonLinesAgainstAverage(records: seq<Record>, money: real -> string)
    ensures var calculation := Calculation(records);
      SummaryPersonLines(calculation, money) == SortedPersonLines(calculation.totalByPerson, calculation.average, money)
  {
    CalculationBalances(records);
    CalculationTotals(records);
    PersonLinesAgainstAverage(Calculation(records), money);
  }

  /** The person lines of a calculation whose balances are its totals less
      its average. */
  lemma PersonLinesAgainstAverage(calculation: ExpenseCalculation, money: real -> string)
    requires forall p :: p in Persons(calculation.totalByPerson) ==>
      Get(calculation.balanceByPerson, p) == Get(calculation.totalByPerson, p) - calculation.average
    ensures SummaryPersonLines(calculation, money)
         == SortedPersonLines(calculation.totalByPerson, calculation.average, money)
  {
    var totals := calculation.totalByPerson;
    var a, b := SummaryPersonLines(calculation, money), SortedPersonLines(totals, calculation.average, money);
    forall i | 0 <= i < |a| ensures a[i] == b[i] {
      PersonLineAt(calculation, money, i);
    }
  }

  lemma PersonLineAt(calculation: ExpenseCalculation, money: real -> string, i: nat)
    requires forall p :: p in Persons(calculation.totalByPerson) ==>
      Get(calculation.balanceByPerson, p) == Get(calculation.totalByPerson, p) - calculation.average
    requires i < |calculation.totalByPerson|
    ensures SummaryPersonLines(calculation, money)[i]
         == SortedPersonLines(calculation.totalByPerson, calculation.average, money)[i]
  {
    var totals := calculation.totalByPerson;
    var items := SortedItems(totals);
    SortedElement(Persons(totals), i);
    assert items[i].person in Persons(totals);
  }

}
