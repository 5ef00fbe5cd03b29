/**
  The greedy settlement loop shared, near verbatim, by
  `CalculationService.calculate_expenses`, `ExpenseService._calculate_splits`
  and the `total_splited` command:

      for debtor_name, amount_owed in debtors:
          for i, (creditor_name, amount_to_receive) in enumerate(creditors):
              if amount_owed == 0: break
              payment_amount = min(amount_owed, amount_to_receive)
              if payment_amount > 0:
                  emit (debtor_name, creditor_name, payment_amount)
                  creditors[i] = (creditor_name, amount_to_receive - payment_amount)
                  amount_owed -= payment_amount

  `PayDebtor` is the inner loop and `Settle` the outer one, as functions;
  `SettleInPlace` is the loop itself, updating the creditors list in place.
  Amounts are exact reals, so the `== 0` test is exact.
 */
module Settlement {
  import opened Ledger
  import opened Sorting
  import opened Seqs

  /** `(debtor, creditor, amount)`. */
  datatype Payment = Payment(debtor: string, creditor: string, amount: real)

  /** State after the inner loop: payments emitted, amount still owed, and
      the creditors list. */
  datatype Step = Step(payments: seq<Payment>, owed: real, creditors: seq<Entry>)

  /** State after the outer loop: all payments and the creditors list. */
  datatype Outcome = Outcome(payments: seq<Payment>, creditors: seq<Entry>)

  /** The inner loop for one debtor who owes `owed`, over creditors `cs`. */
  function PayDebtor(debtor: string, owed: real, cs: seq<Entry>): (st: Step)
    ensures |st.creditors| == |cs|
    decreases |cs|
  {
    if |cs| == 0 || owed == 0.0 then Step([], owed, cs)
    else
      var c := cs[0];
      var pay := if owed <= c.amount then owed else c.amount;
      var rest := PayDebtor(debtor, if pay > 0.0 then owed - pay else owed, cs[1..]);
      var left := if pay > 0.0 then Entry(c.person, c.amount - pay) else c;
      Step((if pay > 0.0 then [Payment(debtor, c.person, pay)] else []) + rest.payments, rest.owed,
           [left] + rest.creditors)
  }

  /** One iteration of the inner loop, for a creditor list that is not yet
      exhausted and a debtor who still owes something. */
  lemma PayDebtorStep(debtor: string, owed: real, cs: seq<Entry>)
    requires |cs| > 0 && owed != 0.0
    ensures var c := cs[0];
      var pay := if owed <= c.amount then owed else c.amount;
      var rest := PayDebtor(debtor, if pay > 0.0 then owed - pay else owed, cs[1..]);
      var st := PayDebtor(debtor, owed, cs);
      && st.owed == rest.owed
      && st.payments == (if pay > 0.0 then [Payment(debtor, c.person, pay)] else []) + rest.payments
      && st.creditors == [if pay > 0.0 then Entry(c.person, c.amount - pay) else c] + rest.creditors
  {
  }

  /** The outer loop over debtors `ds`, starting from creditors `cs`. */
  function Settle(ds: seq<Entry>, cs: seq<Entry>): (o: Outcome)
    ensures Persons(o.creditors) == Persons(cs)
    decreases |ds|
  {
    if |ds| == 0 then Outcome([], cs)
    else
      var before := Settle(ds[..|ds| - 1], cs);
      PayDebtorNames(ds[|ds| - 1].person, ds[|ds| - 1].amount, before.creditors);
      PayNext(before, ds[|ds| - 1])
  }

  /** One iteration of the outer loop: debtor `d` pays from the creditors as
      the earlier debtors left them. */
  function PayNext(before: Outcome, d: Entry): Outcome {
    Outcome(before.payments + PayDebtor(d.person, d.amount, before.creditors).payments,
            PayDebtor(d.person, d.amount, before.creditors).creditors)
  }

  /** The outcome for all debtors is the last debtor's pass after the others'. */
  lemma SettleUnfold(ds: seq<Entry>, cs: seq<Entry>)
    requires |ds| > 0
    ensures Settle(ds, cs) == PayNext(Settle(ds[..|ds| - 1], cs), ds[|ds| - 1])
  {
  }

  /** The pass from the `i`-th creditor on, indexing the list as the
      in-place loop does. */
  function PayFrom(debtor: string, owed: real, cs: seq<Entry>, i: nat): Step
    requires i <= |cs|
    decreases |cs| - i
  {
    if i == |cs| || owed == 0.0 then Step([], owed, cs[i..])
    else
      var c := cs[i];
      var pay := if owed <= c.amount then owed else c.amount;
      var rest := PayFrom(debtor, if pay > 0.0 then owed - pay else owed, cs, i + 1);
      var left := if pay > 0.0 then Entry(c.person, c.amount - pay) else c;
      Step((if pay > 0.0 then [Payment(debtor, c.person, pay)] else []) + rest.payments, rest.owed,
           [left] + rest.creditors)
  }

  /** The indexed pass is the pass over the rest of the list. */
  lemma {:induction false} PayFromSlice(debtor: string, owed: real, cs: seq<Entry>, i: nat)
    requires i <= |cs|
    ensures PayFrom(debtor, owed, cs, i) == PayDebtor(debtor, owed, cs[i..])
    decreases |cs| - i
  {
    if i < |cs| && owed != 0.0 {
      var c := cs[i];
      var pay := if owed <= c.amount then owed else c.amount;
      PayFromSlice(debtor, if pay > 0.0 then owed - pay else owed, cs, i + 1);
      PayDebtorStep(debtor, owed, cs[i..]);
      assert cs[i..][1..] == cs[i + 1..];
    }
  }

  /** What the in-place loop has paid and left so far, followed by the pass
      from the `i`-th creditor on, is the whole pass. */
  predicate PassSoFar(debtor: string, owed: real, cs: seq<Entry>, i: nat, paid: seq<Payment>, done: seq<Entry>,
                      whole: Step)
  {
    && i <= |cs|
    && paid + PayFrom(debtor, owed, cs, i).payments == whole.payments
    && done + PayFrom(debtor, owed, cs, i).creditors == whole.creditors
  }

  /** One iteration of the inner loop keeps `PassSoFar`. */
  lemma PayFromStep(debtor: string, owed: real, cs: seq<Entry>, i: nat, done: seq<Entry>,
                    paid: seq<Payment>, whole: Step, owedNext: real, paidNext: seq<Payment>, left: Entry)
    requires i < |cs| && owed != 0.0
    requires PassSoFar(debtor, owed, cs, i, paid, done, whole)
    requires var pay := if owed <= cs[i].amount then owed else cs[i].amount;
      && owedNext == (if pay > 0.0 then owed - pay else owed)
      && paidNext == paid + (if pay > 0.0 then [Payment(debtor, cs[i].person, pay)] else [])
      && left == (if pay > 0.0 then Entry(cs[i].person, cs[i].amount - pay) else cs[i])
    ensures PassSoFar(debtor, owedNext, cs, i + 1, paidNext, done + [left], whole)
  {
  }

  /** The inner loop for one debtor, over the creditors list in place. */
  method PayDebtorInPlace(debtorName: string, amountOwed: real, creditors: array<Entry>)
    returns (payments: seq<Payment>)
    modifies creditors
    ensures payments == PayDebtor(debtorName, amountOwed, old(creditors[..])).payments
    ensures creditors[..] == PayDebtor(debtorName, amountOwed, old(creditors[..])).creditors
  {
    ghost var original := creditors[..];
    ghost var whole := PayFrom(debtorName, amountOwed, original, 0);
    PayFromSlice(debtorName, amountOwed, original, 0);
    assert original[0..] == original;
    ghost var done: seq<Entry> := [];
    payments := [];
    var owed := amountOwed;
    var i := 0;
    while i < creditors.Length
      invariant 0 <= i <= creditors.Length == |original| && |done| == i
      invariant creditors[..] == done + original[i..]
      invariant PassSoFar(debtorName, owed, original, i, payments, done, whole)
    {
      if owed == 0.0 {
        break;
      }
      SuffixStep(original, i);
      ghost var paid, owedBefore := payments, owed;
      var emitted;
      ghost var left;
      owed, emitted, left := PayCreditor(debtorName, owed, creditors, i, done, original[i..]);
      payments := payments + emitted;
      PayFromStep(debtorName, owedBefore, original, i, done, paid, whole, owed, payments, left);
      done := done + [left];
      i := i + 1;
    }
    if i < creditors.Length {
      assert PayFrom(debtorName, owed, original, i).creditors == original[i..];
    }
  }

  /** One iteration of the inner loop: the `i`-th creditor, the head of
      `rest`, receives what the debtor can pay it. */
  method PayCreditor(debtorName: string, owed: real, creditors: array<Entry>, i: nat,
                     ghost done: seq<Entry>, ghost rest: seq<Entry>)
    returns (owedNext: real, emitted: seq<Payment>, ghost left: Entry)
    requires |done| == i && |rest| > 0 && creditors[..] == done + rest
    modifies creditors
    ensures var c := rest[0];
      var pay := if owed <= c.amount then owed else c.amount;
      && owedNext == (if pay > 0.0 then owed - pay else owed)
      && emitted == (if pay > 0.0 then [Payment(debtorName, c.person, pay)] else [])
      && left == (if pay > 0.0 then Entry(c.person, c.amount - pay) else c)
      && creditors[..] == (done + [left]) + rest[1..]
  {
    MoveHead(done, rest);
    var c := creditors[i];
    var pay := if owed <= c.amount then owed else c.amount;
    left := c;
    owedNext, emitted := owed, [];
    if pay > 0.0 {
      emitted := [Payment(debtorName, c.person, pay)];
      creditors[i] := Entry(c.person, c.amount - pay);
      owedNext := owed - pay;
      left := creditors[i];
      UpdateAfter(done, rest, left);
    }
  }

  /** The nested loop, mutating `creditors` in place as the source does. */
  method SettleInPlace(debtors: seq<Entry>, creditors: array<Entry>) returns (payments: seq<Payment>)
    modifies creditors
    ensures payments == Settle(debtors, old(creditors[..])).payments
    ensures creditors[..] == Settle(debtors, old(creditors[..])).creditors
  {
    payments := [];
    var k := 0;
    while k < |debtors|
      invariant 0 <= k <= |debtors|
      invariant payments == Settle(debtors[..k], old(creditors[..])).payments
      invariant creditors[..] == Settle(debtors[..k], old(creditors[..])).creditors
    {
      var emitted := PayDebtorInPlace(debtors[k].person, debtors[k].amount, creditors);
      payments := payments + emitted;
      assert debtors[..k + 1][..k] == debtors[..k];
      SettleUnfold(debtors[..k + 1], old(creditors[..]));
      k := k + 1;
    }
    assert debtors[..|debtors|] == debtors;
  }

  // ----- Measures over entries and payments -----

  predicate NonNegative(es: seq<Entry>) {
    forall i :: 0 <= i < |es| ==> es[i].amount >= 0.0
  }

  predicate Positive(es: seq<Entry>) {
    forall i :: 0 <= i < |es| ==> es[i].amount > 0.0
  }

  /** Number of entries with a positive amount (creditors still to be paid). */
  function Open(es: seq<Entry>): (n: nat)
    ensures n <= |es|
    decreases |es|
  {
    if |es| == 0 then 0 else (if es[0].amount > 0.0 then 1 else 0) + Open(es[1..])
  }

  /** Total amount of the payments. */
  function Total(ps: seq<Payment>): real
    decreases |ps|
  {
    if |ps| == 0 then 0.0 else ps[0].amount + Total(ps[1..])
  }

  /** Total paid by debtor `d`. */
  function PaidBy(ps: seq<Payment>, d: string): real
    decreases |ps|
  {
    if |ps| == 0 then 0.0 else (if ps[0].debtor == d then ps[0].amount else 0.0) + PaidBy(ps[1..], d)
  }

  /** Total received by creditor `c`. */
  function ReceivedBy(ps: seq<Payment>, c: string): real
    decreases |ps|
  {
    if |ps| == 0 then 0.0 else (if ps[0].creditor == c then ps[0].amount else 0.0) + ReceivedBy(ps[1..], c)
  }

  lemma {:induction false} TotalConcat(a: seq<Payment>, b: seq<Payment>)
    ensures Total(a + b) == Total(a) + Total(b)
    ensures forall d :: PaidBy(a + b, d) == PaidBy(a, d) + PaidBy(b, d)
    ensures forall c :: ReceivedBy(a + b, c) == ReceivedBy(a, c) + ReceivedBy(b, c)
    decreases |a|
  {
    if |a| > 0 {
      assert (a + b)[1..] == a[1..] + b;
      TotalConcat(a[1..], b);
    } else {
      assert a + b == b;
    }
  }

  lemma {:induction false} PaidByOnly(ps: seq<Payment>, d: string)
    ensures (forall k :: 0 <= k < |ps| ==> ps[k].debtor == d) ==> PaidBy(ps, d) == Total(ps)
    ensures (forall k :: 0 <= k < |ps| ==> ps[k].debtor != d) ==> PaidBy(ps, d) == 0.0
    decreases |ps|
  {
    if |ps| > 0 {
      PaidByOnly(ps[1..], d);
    }
  }

  lemma {:induction false} ReceivedByNone(ps: seq<Payment>, c: string)
    requires forall k :: 0 <= k < |ps| ==> ps[k].creditor != c
    ensures ReceivedBy(ps, c) == 0.0
    decreases |ps|
  {
    if |ps| > 0 {
      ReceivedByNone(ps[1..], c);
    }
  }

  lemma {:induction false} OpenZero(es: seq<Entry>)
    requires NonNegative(es) && Sum(es) == 0.0
    ensures forall j :: 0 <= j < |es| ==> es[j].amount == 0.0
    ensures Open(es) == 0
    decreases |es|
  {
    if |es| > 0 {
      SumNonNegative(es[1..]);
      OpenZero(es[1..]);
      forall j | 0 < j < |es| ensures es[j].amount == 0.0 {
        assert es[j] == es[1..][j - 1];
      }
    }
  }

  lemma {:induction false} OpenPositive(es: seq<Entry>)
    requires Positive(es)
    ensures Open(es) == |es| && NonNegative(es)
    decreases |es|
  {
    if |es| > 0 {
      assert Positive(es[1..]) by {
        forall i | 0 <= i < |es[1..]| ensures es[1..][i].amount > 0.0 {
          assert es[1..][i] == es[i + 1];
        }
      }
      OpenPositive(es[1..]);
    }
  }

  lemma {:induction false} SumNonNegative(es: seq<Entry>)
    requires NonNegative(es)
    ensures Sum(es) >= 0.0
    decreases |es|
  {
    if |es| > 0 {
      SumNonNegative(es[1..]);
    }
  }

  // ----- The inner loop -----

  /** A pass keeps the creditors list's persons and order, and each of its
      payments is a positive amount from this debtor to a listed creditor. */
  lemma PayDebtorNames(debtor: string, owed: real, cs: seq<Entry>)
    ensures var st := PayDebtor(debtor, owed, cs);
      && Persons(st.creditors) == Persons(cs)
      && forall k :: 0 <= k < |st.payments| ==>
           st.payments[k].debtor == debtor && st.payments[k].amount > 0.0 &&
           st.payments[k].creditor in Persons(cs)
  {
    PayDebtorPersons(debtor, owed, cs);
    PayDebtorPayments(debtor, owed, cs);
  }

  /** A pass keeps the creditors list's persons and order. */
  lemma {:induction false} PayDebtorPersons(debtor: string, owed: real, cs: seq<Entry>)
    ensures Persons(PayDebtor(debtor, owed, cs).creditors) == Persons(cs)
    decreases |cs|
  {
    if |cs| > 0 && owed != 0.0 {
      var c := cs[0];
      var pay := if owed <= c.amount then owed else c.amount;
      var owedNext := if pay > 0.0 then owed - pay else owed;
      var rest := PayDebtor(debtor, owedNext, cs[1..]);
      var left := if pay > 0.0 then Entry(c.person, c.amount - pay) else c;
      PayDebtorStep(debtor, owed, cs);
      PayDebtorPersons(debtor, owedNext, cs[1..]);
      PersonsCons(c, cs[1..]);
      PersonsCons(left, rest.creditors);
      HeadSplit(cs);
    }
  }

  /** Each payment of a pass is a positive amount from this debtor to a
      listed creditor. */
  lemma {:induction false} PayDebtorPayments(debtor: string, owed: real, cs: seq<Entry>)
    ensures var st := PayDebtor(debtor, owed, cs);
      forall k :: 0 <= k < |st.payments| ==>
        st.payments[k].debtor == debtor && st.payments[k].amount > 0.0 &&
        st.payments[k].creditor in Persons(cs)
    decreases |cs|
  {
    if |cs| > 0 && owed != 0.0 {
      var c := cs[0];
      var pay := if owed <= c.amount then owed else c.amount;
      var owedNext := if pay > 0.0 then owed - pay else owed;
      PayDebtorStep(debtor, owed, cs);
      PayDebtorPayments(debtor, owedNext, cs[1..]);
      HeadSplit(cs);
      PersonsCons(c, cs[1..]);
    }
  }

  /** One debtor's pass never leaves a creditor below zero or above what it
      had, and never leaves the debtor owing more than before or below zero. */
  lemma {:induction false} PayDebtorBounds(debtor: string, owed: real, cs: seq<Entry>)
    requires owed >= 0.0 && NonNegative(cs)
    ensures var st := PayDebtor(debtor, owed, cs);
      && NonNegative(st.creditors)
      && (forall j :: 0 <= j < |cs| ==> st.creditors[j].amount <= cs[j].amount)
      && 0.0 <= st.owed <= owed
    decreases |cs|
  {
    if |cs| > 0 && owed != 0.0 {
      var c := cs[0];
      var pay := if owed <= c.amount then owed else c.amount;
      var owedNext := if pay > 0.0 then owed - pay else owed;
      var left := if pay > 0.0 then Entry(c.person, c.amount - pay) else c;
      PayDebtorStep(debtor, owed, cs);
      PayDebtorBounds(debtor, owedNext, cs[1..]);
      BoundsStep(cs, left, PayDebtor(debtor, owedNext, cs[1..]).creditors, PayDebtor(debtor, owed, cs).creditors);
    }
  }

  /** The creditor bounds carry over when one creditor is put in front. */
  lemma BoundsStep(cs: seq<Entry>, left: Entry, restCs: seq<Entry>, out: seq<Entry>)
    requires |cs| > 0 && out == [left] + restCs && |restCs| == |cs| - 1
    requires 0.0 <= left.amount <= cs[0].amount
    requires NonNegative(restCs) && forall j :: 0 <= j < |restCs| ==> restCs[j].amount <= cs[1..][j].amount
    ensures NonNegative(out) && forall j :: 0 <= j < |cs| ==> out[j].amount <= cs[j].amount
  {
    forall j | 0 < j < |cs| ensures out[j].amount <= cs[j].amount {
      assert out[j] == restCs[j - 1] && cs[j] == cs[1..][j - 1];
    }
  }

  /** What a pass pays plus what the debtor still owes is what it owed, and
      what it pays is taken off the creditors' total. */
  lemma {:induction false} PayDebtorConservation(debtor: string, owed: real, cs: seq<Entry>)
    ensures var st := PayDebtor(debtor, owed, cs);
      && Total(st.payments) + st.owed == owed
      && Sum(st.creditors) + Total(st.payments) == Sum(cs)
    decreases |cs|
  {
    if |cs| > 0 && owed != 0.0 {
      var c := cs[0];
      var pay := if owed <= c.amount then owed else c.amount;
      var owedNext := if pay > 0.0 then owed - pay else owed;
      var rest := PayDebtor(debtor, owedNext, cs[1..]);
      PayDebtorStep(debtor, owed, cs);
      PayDebtorConservation(debtor, owedNext, cs[1..]);
      var head := if pay > 0.0 then [Payment(debtor, c.person, pay)] else [];
      TotalConcat(head, rest.payments);
      var e := if pay > 0.0 then Entry(c.person, c.amount - pay) else c;
      assert ([e] + rest.creditors)[1..] == rest.creditors;
    }
  }

  /** A debtor who owes no more than the creditors still have to receive
      leaves the pass owing nothing. */
  lemma {:induction false} PayDebtorFull(debtor: string, owed: real, cs: seq<Entry>)
    requires 0.0 <= owed <= Sum(cs) && NonNegative(cs)
    ensures PayDebtor(debtor, owed, cs).owed == 0.0
    decreases |cs|
  {
    if |cs| > 0 && owed != 0.0 {
      var c := cs[0];
      var pay := if owed <= c.amount then owed else c.amount;
      SumNonNegative(cs[1..]);
      if pay > 0.0 {
        PayDebtorFull(debtor, owed - pay, cs[1..]);
      } else {
        PayDebtorFull(debtor, owed, cs[1..]);
      }
    }
  }

  /** What each creditor has left is what it had minus what it received. */
  lemma PayDebtorReceived(debtor: string, owed: real, cs: seq<Entry>)
    requires IsDict(cs)
    ensures var st := PayDebtor(debtor, owed, cs);
      forall j :: 0 <= j < |cs| ==>
        st.creditors[j].amount == cs[j].amount - ReceivedBy(st.payments, cs[j].person)
  {
    forall j | 0 <= j < |cs|
      ensures var st := PayDebtor(debtor, owed, cs);
        st.creditors[j].amount == cs[j].amount - ReceivedBy(st.payments, cs[j].person)
    {
      PayDebtorReceivedAt(debtor, owed, cs, j);
    }
  }

  /** The same for the creditor at one position. */
  lemma {:induction false} PayDebtorReceivedAt(debtor: string, owed: real, cs: seq<Entry>, j: nat)
    requires IsDict(cs) && j < |cs|
    ensures var st := PayDebtor(debtor, owed, cs);
      st.creditors[j].amount == cs[j].amount - ReceivedBy(st.payments, cs[j].person)
    decreases |cs|
  {
    var st := PayDebtor(debtor, owed, cs);
    if owed != 0.0 {
      var c := cs[0];
      var pay := if owed <= c.amount then owed else c.amount;
      var owedNext := if pay > 0.0 then owed - pay else owed;
      var rest := PayDebtor(debtor, owedNext, cs[1..]);
      var head := if pay > 0.0 then [Payment(debtor, c.person, pay)] else [];
      var left := if pay > 0.0 then Entry(c.person, c.amount - pay) else c;
      PayDebtorStep(debtor, owed, cs);
      assert st.creditors == [left] + rest.creditors && st.payments == head + rest.payments;
      DictTail(cs);
      if j == 0 {
        PayDebtorNames(debtor, owedNext, cs[1..]);
        ReceivedFirst(debtor, c, pay, rest.payments, Persons(cs[1..]));
      } else {
        PayDebtorReceivedAt(debtor, owedNext, cs[1..], j - 1);
        ReceivedLater(left, head, rest.creditors, rest.payments, cs, j);
      }
    }
  }

  /** The first creditor of a pass is left with what it had minus the
      payment to it, since the rest of the pass pays others. */
  lemma ReceivedFirst(debtor: string, c: Entry, pay: real, later: seq<Payment>, others: seq<string>)
    requires c.person !in others
    requires forall k :: 0 <= k < |later| ==> later[k].creditor in others
    ensures var head := if pay > 0.0 then [Payment(debtor, c.person, pay)] else [];
      (if pay > 0.0 then Entry(c.person, c.amount - pay) else c).amount
      == c.amount - ReceivedBy(head + later, c.person)
  {
    var head := if pay > 0.0 then [Payment(debtor, c.person, pay)] else [];
    TotalConcat(head, later);
    ReceivedByNone(later, c.person);
  }

  /** A later creditor of a pass is left with what the rest of the pass
      leaves it, since the first payment goes to the first creditor. */
  lemma ReceivedLater(left: Entry, head: seq<Payment>, restCs: seq<Entry>, later: seq<Payment>, cs: seq<Entry>, j: nat)
    requires IsDict(cs) && 0 < j < |cs| && |restCs| == |cs| - 1
    requires forall k :: 0 <= k < |head| ==> head[k].creditor == cs[0].person
    requires restCs[j - 1].amount == cs[1..][j - 1].amount - ReceivedBy(later, cs[1..][j - 1].person)
    ensures ([left] + restCs)[j].amount == cs[j].amount - ReceivedBy(head + later, cs[j].person)
  {
    DictTailAt(cs, j);
    TotalConcat(head, later);
    ReceivedByNone(head, cs[j].person);
  }

  /** A later entry of a dict is an entry of its tail, under another key
      than the first. */
  lemma DictTailAt(cs: seq<Entry>, j: nat)
    requires IsDict(cs) && 0 < j < |cs|
    ensures cs[1..][j - 1] == cs[j] && cs[0].person != cs[j].person
  {
    assert Persons(cs)[0] != Persons(cs)[j];
  }

  /** Every payment but the last of a pass empties its creditor, so a pass
      makes at most one payment more than the creditors it empties; a debtor
      who owes exactly what the creditors have left empties a creditor with
      every payment. */
  lemma {:induction false} PayDebtorCount(debtor: string, owed: real, cs: seq<Entry>)
    requires owed >= 0.0 && NonNegative(cs)
    ensures var st := PayDebtor(debtor, owed, cs);
      |st.payments| + Open(st.creditors) <= Open(cs) + 1
    ensures var st := PayDebtor(debtor, owed, cs);
      owed == Sum(cs) ==> |st.payments| + Open(st.creditors) <= Open(cs)
    decreases |cs|
  {
    if |cs| == 0 {
    } else if owed == 0.0 {
      if owed == Sum(cs) { OpenZero(cs); }
    } else {
      var c := cs[0];
      var pay := if owed <= c.amount then owed else c.amount;
      var owedNext := if pay > 0.0 then owed - pay else owed;
      var rest := PayDebtor(debtor, owedNext, cs[1..]);
      var e := if pay > 0.0 then Entry(c.person, c.amount - pay) else c;
      PayDebtorStep(debtor, owed, cs);
      SumNonNegative(cs[1..]);
      PayDebtorCount(debtor, owedNext, cs[1..]);
      assert ([e] + rest.creditors)[1..] == rest.creditors;
    }
  }

  lemma {:induction false} FirstIndexCons(x: string, ps: seq<string>, q: string)
    requires q in ps && q != x
    ensures FirstIndex([x] + ps, q) == 1 + FirstIndex(ps, q)
  {
    assert ([x] + ps)[1..] == ps;
  }

  /** The payments go to creditors of `names`, in the order of `names`, and
      to each at most once. */
  predicate InListOrder(ps: seq<Payment>, names: seq<string>) {
    && (forall k :: 0 <= k < |ps| ==> ps[k].creditor in names)
    && forall k, l :: 0 <= k < l < |ps| ==>
         FirstIndex(names, ps[k].creditor) < FirstIndex(names, ps[l].creditor)
  }

  /** A name put in front of the list does not disturb the order of payments
      that do not go to it. */
  lemma InListOrderShift(x: string, names: seq<string>, ps: seq<Payment>)
    requires x !in names && InListOrder(ps, names)
    ensures InListOrder(ps, [x] + names)
    ensures forall k :: 0 <= k < |ps| ==>
      FirstIndex([x] + names, ps[k].creditor) == 1 + FirstIndex(names, ps[k].creditor)
  {
    forall k | 0 <= k < |ps|
      ensures FirstIndex([x] + names, ps[k].creditor) == 1 + FirstIndex(names, ps[k].creditor)
    {
      FirstIndexCons(x, names, ps[k].creditor);
    }
  }

  /** A payment to the name in front comes before all the others. */
  lemma InListOrderPrepend(first: Payment, names: seq<string>, ps: seq<Payment>)
    requires first.creditor !in names && InListOrder(ps, names)
    ensures InListOrder([first] + ps, [first.creditor] + names)
  {
    var all, qs := [first.creditor] + names, [first] + ps;
    InListOrderShift(first.creditor, names, ps);
    assert FirstIndex(all, first.creditor) == 0;
    forall k, l | 0 <= k < l < |qs|
      ensures FirstIndex(all, qs[k].creditor) < FirstIndex(all, qs[l].creditor)
    {
      assert qs[l] == ps[l - 1];
      if k > 0 {
        assert qs[k] == ps[k - 1];
      }
    }
  }

  /** A pass pays creditors in list order, each at most once. */
  lemma {:induction false} PayDebtorOrder(debtor: string, owed: real, cs: seq<Entry>)
    requires IsDict(cs)
    ensures InListOrder(PayDebtor(debtor, owed, cs).payments, Persons(cs))
    decreases |cs|
  {
    if |cs| > 0 && owed != 0.0 {
      var c := cs[0];
      var pay := if owed <= c.amount then owed else c.amount;
      var owedNext := if pay > 0.0 then owed - pay else owed;
      var rest := PayDebtor(debtor, owedNext, cs[1..]).payments;
      var ps := PayDebtor(debtor, owed, cs).payments;
      var names, tail := Persons(cs), Persons(cs[1..]);
      PayDebtorStep(debtor, owed, cs);
      DictTail(cs);
      HeadSplit(names);
      PayDebtorOrder(debtor, owedNext, cs[1..]);
      if pay > 0.0 {
        assert ps == [Payment(debtor, c.person, pay)] + rest;
        InListOrderPrepend(Payment(debtor, c.person, pay), tail, rest);
      } else {
        assert ps == rest;
        InListOrderShift(c.person, tail, rest);
      }
    }
  }

  // ----- The outer loop -----

  /** Splitting off the last debtor, as `Settle` does. */
  lemma SettleLast(ds: seq<Entry>)
    requires |ds| > 0
    ensures ds == ds[..|ds| - 1] + [ds[|ds| - 1]]
    ensures Sum(ds) == Sum(ds[..|ds| - 1]) + ds[|ds| - 1].amount
    ensures Persons(ds) == Persons(ds[..|ds| - 1]) + [ds[|ds| - 1].person]
  {
    LastSplit(ds);
    SumAppend(ds[..|ds| - 1], ds[|ds| - 1]);
    PersonsLast(ds);
  }

  /** The outer loop keeps the creditors list's persons and order; every
      payment is a positive amount from a listed debtor to a listed creditor. */
  lemma {:induction false} SettleNames(ds: seq<Entry>, cs: seq<Entry>)
    ensures var r := Settle(ds, cs);
      && Persons(r.creditors) == Persons(cs)
      && forall k :: 0 <= k < |r.payments| ==>
           r.payments[k].amount > 0.0 && r.payments[k].debtor in Persons(ds) &&
           r.payments[k].creditor in Persons(cs)
    decreases |ds|
  {
    if |ds| > 0 {
      var init, d := ds[..|ds| - 1], ds[|ds| - 1];
      SettleUnfold(ds, cs);
      var before := Settle(init, cs);
      var step := PayDebtor(d.person, d.amount, before.creditors);
      SettleLast(ds);
      SettleNames(init, cs);
      PayDebtorNames(d.person, d.amount, before.creditors);
      var ps := before.payments + step.payments;
      forall k | 0 <= k < |ps|
        ensures ps[k].amount > 0.0 && ps[k].debtor in Persons(ds) && ps[k].creditor in Persons(cs)
      {
        if k < |before.payments| {
          assert ps[k] == before.payments[k];
        } else {
          assert ps[k] == step.payments[k - |before.payments|];
        }
      }
    }
  }

  /** With non-negative amounts, no creditor ever goes below zero. */
  lemma {:induction false} SettleBounds(ds: seq<Entry>, cs: seq<Entry>)
    requires NonNegative(ds) && NonNegative(cs)
    ensures NonNegative(Settle(ds, cs).creditors)
    decreases |ds|
  {
    if |ds| > 0 {
      var init, d := ds[..|ds| - 1], ds[|ds| - 1];
      SettleUnfold(ds, cs);
      SettleBounds(init, cs);
      PayDebtorBounds(d.person, d.amount, Settle(init, cs).creditors);
    }
  }

  /** What is paid is taken off what the creditors have to receive. */
  lemma {:induction false} SettleConservation(ds: seq<Entry>, cs: seq<Entry>)
    ensures Sum(Settle(ds, cs).creditors) + Total(Settle(ds, cs).payments) == Sum(cs)
    decreases |ds|
  {
    if |ds| > 0 {
      var init, d := ds[..|ds| - 1], ds[|ds| - 1];
      SettleUnfold(ds, cs);
      var before := Settle(init, cs);
      var step := PayDebtor(d.person, d.amount, before.creditors);
      SettleConservation(init, cs);
      PayDebtorConservation(d.person, d.amount, before.creditors);
      TotalConcat(before.payments, step.payments);
    }
  }

  /** Prefix of a list of non-negative entries. */
  lemma NonNegativeInit(ds: seq<Entry>)
    requires |ds| > 0 && NonNegative(ds)
    ensures NonNegative(ds[..|ds| - 1])
  {
    var init := ds[..|ds| - 1];
    forall k | 0 <= k < |init| ensures init[k].amount >= 0.0 {
      assert init[k] == ds[k];
    }
  }

  /** When the creditors have at least as much to receive as the debtors owe,
      the debtors pay all they owe, and the creditors are left with the
      difference. */
  lemma {:induction false} SettleTotal(ds: seq<Entry>, cs: seq<Entry>)
    requires NonNegative(ds) && NonNegative(cs) && Sum(ds) <= Sum(cs)
    ensures Total(Settle(ds, cs).payments) == Sum(ds)
    ensures Sum(Settle(ds, cs).creditors) == Sum(cs) - Sum(ds)
    decreases |ds|
  {
    SettleConservation(ds, cs);
    if |ds| > 0 {
      var init, d := ds[..|ds| - 1], ds[|ds| - 1];
      SettleUnfold(ds, cs);
      var before := Settle(init, cs);
      var step := PayDebtor(d.person, d.amount, before.creditors);
      SettleLast(ds);
      NonNegativeInit(ds);
      SettleTotal(init, cs);
      SettleBounds(init, cs);
      PayDebtorConservation(d.person, d.amount, before.creditors);
      PayDebtorFull(d.person, d.amount, before.creditors);
      TotalConcat(before.payments, step.payments);
    }
  }

  /** ... and each debtor pays exactly what it owes. */
  lemma {:induction false} SettleFull(ds: seq<Entry>, cs: seq<Entry>)
    requires NonNegative(ds) && NonNegative(cs) && IsDict(ds) && Sum(ds) <= Sum(cs)
    ensures var r := Settle(ds, cs);
      forall k :: 0 <= k < |ds| ==> PaidBy(r.payments, ds[k].person) == ds[k].amount
    decreases |ds|
  {
    var r := Settle(ds, cs);
    if |ds| > 0 {
      var init, d := ds[..|ds| - 1], ds[|ds| - 1];
      SettleUnfold(ds, cs);
      var before := Settle(init, cs);
      var step := PayDebtor(d.person, d.amount, before.creditors);
      SettleLast(ds);
      NonNegativeInit(ds);
      SumNonNegative(init);
      DictInit(ds);
      SettleFull(init, cs);
      SettleTotal(init, cs);
      SettleBounds(init, cs);
      SettleNames(init, cs);
      PayDebtorNames(d.person, d.amount, before.creditors);
      PayDebtorConservation(d.person, d.amount, before.creditors);
      PayDebtorFull(d.person, d.amount, before.creditors);
      PaidByOnly(before.payments, d.person);
      forall k | 0 <= k < |ds| ensures PaidBy(r.payments, ds[k].person) == ds[k].amount {
        PaidAfterStep(before.payments, step.payments, d.person, ds[k].person);
        if k < |init| {
          assert ds[k] == init[k];
        }
      }
    }
  }

  /** What a debtor has paid after one more pass, made by debtor `d` alone. */
  lemma PaidAfterStep(before: seq<Payment>, step: seq<Payment>, d: string, x: string)
    requires forall k :: 0 <= k < |step| ==> step[k].debtor == d
    ensures PaidBy(before + step, x) == PaidBy(before, x) + (if x == d then Total(step) else 0.0)
  {
    TotalConcat(before, step);
    PaidByOnly(step, x);
  }

  /** What each creditor has left is what it had minus what it received. */
  lemma {:induction false} SettleReceived(ds: seq<Entry>, cs: seq<Entry>)
    requires IsDict(cs)
    ensures var r := Settle(ds, cs);
      |r.creditors| == |cs| &&
      forall j :: 0 <= j < |cs| ==>
        r.creditors[j].amount == cs[j].amount - ReceivedBy(r.payments, cs[j].person)
    decreases |ds|
  {
    if |ds| > 0 {
      var init, d := ds[..|ds| - 1], ds[|ds| - 1];
      SettleUnfold(ds, cs);
      var before := Settle(init, cs);
      var step := PayDebtor(d.person, d.amount, before.creditors);
      SettleReceived(init, cs);
      SettleNames(init, cs);
      PayDebtorReceived(d.person, d.amount, before.creditors);
      TotalConcat(before.payments, step.payments);
      forall j | 0 <= j < |cs|
        ensures step.creditors[j].amount
          == cs[j].amount - ReceivedBy(before.payments + step.payments, cs[j].person)
      {
        assert before.creditors[j].person == cs[j].person by {
          assert Persons(before.creditors)[j] == Persons(cs)[j];
        }
      }
    }
  }

  /** Each debtor's pass makes at most one payment more than the creditors it
      empties; when the debtors owe exactly what the creditors are owed, the
      last debtor's pass empties a creditor with every payment. */
  lemma {:induction false} SettleCount(ds: seq<Entry>, cs: seq<Entry>)
    requires NonNegative(ds) && NonNegative(cs)
    ensures var r := Settle(ds, cs);
      |r.payments| + Open(r.creditors) <= Open(cs) + |ds|
    ensures var r := Settle(ds, cs);
      |ds| > 0 && Sum(ds) == Sum(cs) ==> |r.payments| + Open(r.creditors) < Open(cs) + |ds|
    decreases |ds|
  {
    if |ds| > 0 {
      var init, d := ds[..|ds| - 1], ds[|ds| - 1];
      SettleUnfold(ds, cs);
      var before := Settle(init, cs);
      SettleLast(ds);
      NonNegativeInit(ds);
      SettleCount(init, cs);
      SettleBounds(init, cs);
      SettleConservation(init, cs);
      PayDebtorCount(d.person, d.amount, before.creditors);
      if Sum(ds) == Sum(cs) {
        SumNonNegative(init);
        assert Sum(init) <= Sum(cs);
        SettleTotal(init, cs);
        assert d.amount == Sum(before.creditors);
      }
    }
  }

  /** Payments come grouped by debtor, in the debtors' order, and within a
      debtor in the creditors' order. */
  predicate InSettleOrder(ps: seq<Payment>, debtors: seq<string>, creditors: seq<string>) {
    && (forall k :: 0 <= k < |ps| ==> ps[k].debtor in debtors && ps[k].creditor in creditors)
    && forall k, l :: 0 <= k < l < |ps| ==>
         || FirstIndex(debtors, ps[k].debtor) < FirstIndex(debtors, ps[l].debtor)
         || (ps[k].debtor == ps[l].debtor &&
             FirstIndex(creditors, ps[k].creditor) < FirstIndex(creditors, ps[l].creditor))
  }

  /** One more debtor's payments, all to listed creditors in their order,
      come after those of the debtors before it. */
  lemma InSettleOrderAppend(a: seq<Payment>, b: seq<Payment>, debtors: seq<string>,
                            x: string, creditors: seq<string>)
    requires InSettleOrder(a, debtors, creditors) && x !in debtors
    requires InListOrder(b, creditors) && forall k :: 0 <= k < |b| ==> b[k].debtor == x
    ensures InSettleOrder(a + b, debtors + [x], creditors)
  {
    var all, ps := debtors + [x], a + b;
    forall q | q in debtors ensures FirstIndex(all, q) == FirstIndex(debtors, q) {
      FirstIndexPrefix(debtors, [x], q);
    }
    assert all[..|debtors|] == debtors;
    assert FirstIndex(all, x) == |debtors|;
    forall k, l | 0 <= k < l < |ps|
      ensures || FirstIndex(all, ps[k].debtor) < FirstIndex(all, ps[l].debtor)
              || (ps[k].debtor == ps[l].debtor &&
                  FirstIndex(creditors, ps[k].creditor) < FirstIndex(creditors, ps[l].creditor))
    {
      if l < |a| {
        assert ps[k] == a[k] && ps[l] == a[l];
      } else if k < |a| {
        assert ps[k] == a[k] && ps[l] == b[l - |a|];
      } else {
        assert ps[k] == b[k - |a|] && ps[l] == b[l - |a|];
      }
    }
  }

  /** The outer loop pays debtor by debtor in the debtors' order, and each
      debtor's creditors in the creditors' order, each at most once. */
  lemma {:induction false} SettleOrder(ds: seq<Entry>, cs: seq<Entry>)
    requires IsDict(ds) && IsDict(cs)
    ensures InSettleOrder(Settle(ds, cs).payments, Persons(ds), Persons(cs))
    decreases |ds|
  {
    if |ds| > 0 {
      var init, d := ds[..|ds| - 1], ds[|ds| - 1];
      SettleUnfold(ds, cs);
      var before := Settle(init, cs);
      var step := PayDebtor(d.person, d.amount, before.creditors);
      var names := Persons(ds);
      SettleLast(ds);
      assert IsDict(init) by {
        forall i, j | 0 <= i < j < |init| ensures Persons(init)[i] != Persons(init)[j] {
          assert Persons(init)[i] == names[i] && Persons(init)[j] == names[j];
        }
      }
      assert d.person !in Persons(init) by {
        forall i | 0 <= i < |init| ensures Persons(init)[i] != d.person {
          assert Persons(init)[i] == names[i] && d.person == names[|ds| - 1];
        }
      }
      SettleOrder(init, cs);
      SettleNames(init, cs);
      PayDebtorNames(d.person, d.amount, before.creditors);
      PayDebtorOrder(d.person, d.amount, before.creditors);
      InSettleOrderAppend(before.payments, step.payments, Persons(init), d.person, Persons(cs));
    }
  }
}
