/**
  The per-person totals dictionary the handlers build with
  `total_by_person[p] = total_by_person.get(p, 0) + value`: a Python dict,
  which keeps its keys in insertion order. It is modelled as a sequence of
  entries whose persons are pairwise distinct.
 */
module Ledger {
  import opened Sorting
  import opened Seqs

  /** A `(person, amount)` pair: a dict item, a contribution `(person, value)`,
      a debtor or a creditor. */
  datatype Entry = Entry(person: string, amount: real)

  /** An expense record `(value, description, payer)`. */
  datatype Record = Record(value: real, description: string, person: string)

  /** The `(person, value)` contributions of the records, in order. */
  function Contributions(records: seq<Record>): (cs: seq<Entry>)
    ensures |cs| == |records|
    ensures forall i :: 0 <= i < |records| ==>
      cs[i].person == records[i].person && cs[i].amount == records[i].value
  {
    seq(|records|, i requires 0 <= i < |records| => Entry(records[i].person, records[i].value))
  }

  function Persons(es: seq<Entry>): (ps: seq<string>)
    ensures |ps| == |es| && forall i :: 0 <= i < |es| ==> ps[i] == es[i].person
  {
    seq(|es|, i requires 0 <= i < |es| => es[i].person)
  }

  /** The keys of a dict are distinct. */
  predicate IsDict(es: seq<Entry>) {
    Distinct(Persons(es))
  }

  /** A dict without its first key is a dict that lacks that key. */
  lemma DictTail(es: seq<Entry>)
    requires IsDict(es) && |es| > 0
    ensures IsDict(es[1..]) && es[0].person !in Persons(es[1..])
    ensures Persons(es[1..]) == Persons(es)[1..]
  {
    var rest := es[1..];
    assert Persons(rest) == Persons(es)[1..];
    forall j | 0 <= j < |rest| ensures Persons(rest)[j] != es[0].person {
      assert Persons(rest)[j] == Persons(es)[j + 1];
    }
  }

  /** A dict without its last key is a dict that lacks that key. */
  lemma DictInit(es: seq<Entry>)
    requires IsDict(es) && |es| > 0
    ensures IsDict(es[..|es| - 1]) && es[|es| - 1].person !in Persons(es[..|es| - 1])
    ensures forall k :: 0 <= k < |es| - 1 ==> es[k].person != es[|es| - 1].person
  {
    var init, names := es[..|es| - 1], Persons(es);
    forall i, j | 0 <= i < j < |init| ensures Persons(init)[i] != Persons(init)[j] {
      assert Persons(init)[i] == names[i] && Persons(init)[j] == names[j];
    }
    forall i | 0 <= i < |init| ensures Persons(init)[i] != es[|es| - 1].person {
      assert Persons(init)[i] == names[i] && es[|es| - 1].person == names[|es| - 1];
    }
  }

  /** `sum(...)` of the amounts. */
  function Sum(es: seq<Entry>): real
    decreases |es|
  {
    if |es| == 0 then 0.0 else es[0].amount + Sum(es[1..])
  }

  /** `d.get(p, 0)`. */
  function Get(es: seq<Entry>, p: string): real
    decreases |es|
  {
    if |es| == 0 then 0.0 else if es[0].person == p then es[0].amount else Get(es[1..], p)
  }

  /** `d[p] = v`: overwrites the value of an existing key in place, or appends a
      new key at the end. */
  function Put(es: seq<Entry>, p: string, v: real): (r: seq<Entry>)
    decreases |es|
  {
    if |es| == 0 then [Entry(p, v)]
    else if es[0].person == p then [Entry(p, v)] + es[1..]
    else [es[0]] + Put(es[1..], p, v)
  }

  /** The dict after the accumulation loop over `contributions`. */
  function TotalsOf(contributions: seq<Entry>): seq<Entry>
    decreases |contributions|
  {
    if |contributions| == 0 then []
    else
      AddTo(TotalsOf(contributions[..|contributions| - 1]), contributions[|contributions| - 1])
  }

  /** One step of the loop: `d[person] = d.get(person, 0) + value`. */
  function AddTo(totals: seq<Entry>, c: Entry): seq<Entry> {
    Put(totals, c.person, Get(totals, c.person) + c.amount)
  }

  /** Sum of the amounts of the contributions made by `p`. */
  function SumFor(contributions: seq<Entry>, p: string): real
    decreases |contributions|
  {
    if |contributions| == 0 then 0.0
    else
      var c := contributions[|contributions| - 1];
      SumFor(contributions[..|contributions| - 1], p) + (if c.person == p then c.amount else 0.0)
  }

  /** Position of the first occurrence of `p`. */
  function FirstIndex(ps: seq<string>, p: string): (i: nat)
    requires p in ps
    ensures i < |ps| && ps[i] == p && p !in ps[..i]
    decreases |ps|
  {
    if ps[0] == p then 0
    else
      var i := 1 + FirstIndex(ps[1..], p);
      assert ps[..i] == [ps[0]] + ps[1..][..i - 1];
      i
  }

  /** The loop `for value, _, person in data: d[person] = d.get(person, 0) + value`. */
  method Accumulate(contributions: seq<Entry>) returns (totals: seq<Entry>)
    ensures totals == TotalsOf(contributions)
  {
    totals := [];
    for i := 0 to |contributions|
      invariant totals == TotalsOf(contributions[..i])
    {
      assert contributions[..i + 1][..i] == contributions[..i];
      TotalsLast(contributions[..i + 1]);
      var c := contributions[i];
      totals := Put(totals, c.person, Get(totals, c.person) + c.amount);
    }
    assert contributions[..|contributions|] == contributions;
  }

  // ----- Put, Get and Sum -----

  lemma {:induction false} PutPersons(es: seq<Entry>, p: string, v: real)
    ensures Persons(Put(es, p, v)) == if p in Persons(es) then Persons(es) else Persons(es) + [p]
    decreases |es|
  {
    if |es| > 0 {
      var e, rest := es[0], es[1..];
      PutPersons(rest, p, v);
      HeadSplit(es);
      PersonsCons(e, rest);
      if e.person != p {
        PersonsCons(e, Put(rest, p, v));
        ConsAppend(e.person, Persons(rest), p);
      } else {
        PersonsCons(Entry(p, v), rest);
      }
    }
  }

  /** The names of a dict with a new first entry. */
  lemma PersonsCons(e: Entry, es: seq<Entry>)
    ensures Persons([e] + es) == [e.person] + Persons(es)
  {
  }

  lemma PersonsLast(ds: seq<Entry>)
    requires |ds| > 0
    ensures Persons(ds) == Persons(ds[..|ds| - 1]) + [ds[|ds| - 1].person]
  {
    var a, b := Persons(ds), Persons(ds[..|ds| - 1]) + [ds[|ds| - 1].person];
    assert |a| == |b|;
    forall i | 0 <= i < |a| ensures a[i] == b[i] {
    }
  }

  lemma {:induction false} GetPut(es: seq<Entry>, p: string, v: real, q: string)
    ensures Get(Put(es, p, v), q) == if q == p then v else Get(es, q)
    decreases |es|
  {
    if |es| > 0 && es[0].person != p {
      GetPut(es[1..], p, v, q);
    }
  }

  lemma {:induction false} GetAbsent(es: seq<Entry>, p: string)
    requires p !in Persons(es)
    ensures Get(es, p) == 0.0
    decreases |es|
  {
    if |es| > 0 {
      assert Persons(es[1..]) == Persons(es)[1..];
      GetAbsent(es[1..], p);
    }
  }

  /** With distinct keys, `Get` finds the entry of that key wherever it is. */
  lemma {:induction false} GetAt(es: seq<Entry>, i: nat)
    requires IsDict(es) && i < |es|
    ensures Get(es, es[i].person) == es[i].amount
    decreases |es|
  {
    if i > 0 {
      assert Persons(es[1..]) == Persons(es)[1..];
      GetAt(es[1..], i - 1);
    }
  }

  lemma {:induction false} SumPut(es: seq<Entry>, p: string, v: real)
    requires IsDict(es)
    ensures Sum(Put(es, p, v)) == Sum(es) - Get(es, p) + v
    decreases |es|
  {
    if |es| > 0 {
      assert Persons(es[1..]) == Persons(es)[1..];
      if es[0].person == p {
        assert p !in Persons(es[1..]);
        GetAbsent(es[1..], p);
        assert Put(es, p, v)[1..] == es[1..];
      } else {
        SumPut(es[1..], p, v);
        assert Put(es, p, v)[1..] == Put(es[1..], p, v);
      }
    } else {
      assert Put(es, p, v)[1..] == [];
    }
  }

  lemma {:induction false} SumAppend(es: seq<Entry>, e: Entry)
    ensures Sum(es + [e]) == Sum(es) + e.amount
    decreases |es|
  {
    if |es| > 0 {
      assert (es + [e])[1..] == es[1..] + [e];
      SumAppend(es[1..], e);
    } else {
      assert (es + [e])[1..] == [];
    }
  }

  lemma {:induction false} SumConcat(a: seq<Entry>, b: seq<Entry>)
    ensures Sum(a + b) == Sum(a) + Sum(b)
    decreases |a|
  {
    if |a| > 0 {
      assert (a + b)[1..] == a[1..] + b;
      SumConcat(a[1..], b);
    } else {
      assert a + b == b;
    }
  }

  // ----- The accumulated totals -----

  /** The last contribution is added to the totals of the ones before it. */
  lemma TotalsLast(cs: seq<Entry>)
    requires |cs| > 0
    ensures TotalsOf(cs) == AddTo(TotalsOf(cs[..|cs| - 1]), cs[|cs| - 1])
    ensures Persons(cs) == Persons(cs[..|cs| - 1]) + [cs[|cs| - 1].person]
  {
    PersonsLast(cs);
  }

  /** The totals dict has one key per distinct contributor, each contributor
      keyed by exact string equality, and is a dict. */
  lemma {:induction false} TotalsKeys(cs: seq<Entry>)
    ensures IsDict(TotalsOf(cs))
    ensures forall p :: p in Persons(TotalsOf(cs)) <==> p in Persons(cs)
    decreases |cs|
  {
    if |cs| > 0 {
      var n := |cs| - 1;
      TotalsKeys(cs[..n]);
      TotalsLast(cs);
      PutKeys(TotalsOf(cs[..n]), cs[n], Persons(cs[..n]));
    }
  }

  /** Adding a contribution to a dict whose keys are the contributors of `ps`. */
  lemma PutKeys(before: seq<Entry>, c: Entry, ps: seq<string>)
    requires IsDict(before) && forall p :: p in Persons(before) <==> p in ps
    ensures var after := AddTo(before, c);
      IsDict(after) && forall p :: p in Persons(after) <==> p in ps + [c.person]
  {
    var after := AddTo(before, c);
    PutPersons(before, c.person, Get(before, c.person) + c.amount);
    KeysStep(Persons(before), ps, c.person, Persons(after), ps + [c.person]);
  }

  /** Adding one contribution keeps the keys distinct and in step with the contributors. */
  lemma KeysStep(keys: seq<string>, ps: seq<string>, x: string, ks: seq<string>, qs: seq<string>)
    requires Distinct(keys) && forall p :: p in keys <==> p in ps
    requires ks == (if x in keys then keys else keys + [x]) && qs == ps + [x]
    ensures Distinct(ks) && forall p :: p in ks <==> p in qs
  {
    if x !in keys {
      DistinctSnoc(keys, x);
    }
  }

  lemma DistinctSnoc(s: seq<string>, x: string)
    requires Distinct(s) && x !in s
    ensures Distinct(s + [x])
  {
    var t := s + [x];
    forall i, j | 0 <= i < j < |t| ensures t[i] != t[j] {
      if j == |s| {
        assert t[i] == s[i];
      } else {
        assert t[i] == s[i] && t[j] == s[j];
      }
    }
  }

  /** `keys` lists persons of `ps` in the order of their first occurrence. */
  predicate FirstSeenOrder(keys: seq<string>, ps: seq<string>) {
    && (forall k :: 0 <= k < |keys| ==> keys[k] in ps)
    && (forall i, j :: 0 <= i < j < |keys| ==> FirstIndex(ps, keys[i]) < FirstIndex(ps, keys[j]))
  }

  /** Keys appear in the order in which their persons first contribute. */
  lemma {:induction false} TotalsKeyOrder(cs: seq<Entry>)
    ensures FirstSeenOrder(Persons(TotalsOf(cs)), Persons(cs))
    decreases |cs|
  {
    if |cs| > 0 {
      var n := |cs| - 1;
      TotalsKeyOrder(cs[..n]);
      TotalsKeys(cs[..n]);
      TotalsLast(cs);
      PutOrder(TotalsOf(cs[..n]), cs[n], Persons(cs[..n]));
    }
  }

  /** Adding a contribution keeps the keys in first-seen order. */
  lemma PutOrder(before: seq<Entry>, c: Entry, ps: seq<string>)
    requires FirstSeenOrder(Persons(before), ps) && forall p :: p in Persons(before) <==> p in ps
    ensures FirstSeenOrder(Persons(AddTo(before, c)), ps + [c.person])
  {
    var after := AddTo(before, c);
    PutPersons(before, c.person, Get(before, c.person) + c.amount);
    FirstSeenOrderExtend(Persons(before), ps, c.person, Persons(after), ps + [c.person]);
  }

  lemma FirstSeenOrderExtend(keys: seq<string>, ps: seq<string>, x: string,
                              ks: seq<string>, qs: seq<string>)
    requires FirstSeenOrder(keys, ps)
    requires forall p :: p in keys <==> p in ps
    requires ks == (if x in keys then keys else keys + [x]) && qs == ps + [x]
    ensures FirstSeenOrder(ks, qs)
  {
    forall q | q in ps
      ensures FirstIndex(qs, q) == FirstIndex(ps, q)
    {
      FirstIndexPrefix(ps, [x], q);
    }
    if x !in keys {
      assert qs[..|ps|] == ps;
      assert FirstIndex(qs, x) == |ps|;
      forall i, j | 0 <= i < j < |ks|
        ensures FirstIndex(qs, ks[i]) < FirstIndex(qs, ks[j])
      {
        assert ks[i] == keys[i];
        if j == |keys| {
        } else {
          assert ks[j] == keys[j];
        }
      }
    }
  }

  lemma {:induction false} FirstIndexPrefix(a: seq<string>, b: seq<string>, q: string)
    requires q in a
    ensures q in a + b && FirstIndex(a + b, q) == FirstIndex(a, q)
    decreases |a|
  {
    if a[0] != q {
      assert (a + b)[1..] == a[1..] + b;
      FirstIndexPrefix(a[1..], b, q);
    }
  }

  /** Each key's total is the sum of exactly that person's contributions. */
  lemma {:induction false} TotalsValues(cs: seq<Entry>, p: string)
    ensures Get(TotalsOf(cs), p) == SumFor(cs, p)
    decreases |cs|
  {
    if |cs| > 0 {
      var n := |cs| - 1;
      var before := TotalsOf(cs[..n]);
      var c := cs[n];
      TotalsValues(cs[..n], p);
      TotalsValues(cs[..n], c.person);
      TotalsLast(cs);
      GetPut(before, c.person, Get(before, c.person) + c.amount, p);
    }
  }

  /** The totals add up to the sum of all contributions. */
  lemma {:induction false} TotalsSum(cs: seq<Entry>)
    ensures Sum(TotalsOf(cs)) == Sum(cs)
    decreases |cs|
  {
    if |cs| > 0 {
      var n := |cs| - 1;
      TotalsSum(cs[..n]);
      TotalsKeys(cs[..n]);
      TotalsLast(cs);
      SumAddTo(TotalsOf(cs[..n]), cs[n]);
      LastSplit(cs);
      SumAppend(cs[..n], cs[n]);
    }
  }

  /** Adding a contribution to a dict adds its amount to the dict's sum. */
  lemma SumAddTo(before: seq<Entry>, c: Entry)
    requires IsDict(before)
    ensures Sum(AddTo(before, c)) == Sum(before) + c.amount
  {
    SumPut(before, c.person, Get(before, c.person) + c.amount);
  }

  // ----- sorted(d.items()) -----

  /** `sorted(d.items())` on a dict: its items by ascending key (keys are
      distinct, so the values never take part in the comparison). */
  function SortedItems(d: seq<Entry>): (r: seq<Entry>)
    ensures |r| == |d| && Persons(r) == Sort(Persons(d))
  {
    var keys := Sort(Persons(d));
    seq(|keys|, i requires 0 <= i < |keys| => Entry(keys[i], Get(d, keys[i])))
  }

  /** The sorted items of a dict are exactly its items, by strictly
      ascending key. */
  lemma SortedItemsOfDict(d: seq<Entry>)
    requires IsDict(d)
    ensures StrictlyAscending(Persons(SortedItems(d))) && IsDict(SortedItems(d))
    ensures forall e :: e in SortedItems(d) <==> e in d
  {
    var r := SortedItems(d);
    SortDistinct(Persons(d));
    forall e | e in r ensures e in d {
      var i :| 0 <= i < |r| && r[i] == e;
      assert e.person in Persons(d);
      var j :| 0 <= j < |d| && Persons(d)[j] == e.person;
      GetAt(d, j);
    }
    forall e | e in d ensures e in r {
      var j :| 0 <= j < |d| && d[j] == e;
      assert Persons(d)[j] == e.person;
      assert e.person in Persons(r);
      var i :| 0 <= i < |r| && Persons(r)[i] == e.person;
      GetAt(d, j);
      assert r[i] == e;
    }
  }
}
