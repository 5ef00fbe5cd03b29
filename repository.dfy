/**
  The two SQLite tables behind the expense and split repositories, as a
  sequence of rows in insertion order. Every row belongs to a period (a
  month and a year); `key` reads it off a row. A read selects the period's
  rows in insertion order (`ORDER BY created_at`), a save deletes a period
  and appends a batch.
 */
module Repository {

  /** A month and a year, the `WHERE month = ? AND year = ?` of every query. */
  datatype Period = Period(month: int, year: int)

  /** `SELECT ... WHERE month = ? AND year = ? ORDER BY created_at`. */
  function Select<T>(rows: seq<T>, key: T -> Period, p: Period): (r: seq<T>)
    ensures |r| <= |rows|
    ensures forall k :: 0 <= k < |r| ==> key(r[k]) == p
    decreases |rows|
  {
    if |rows| == 0 then []
    else (if key(rows[0]) == p then [rows[0]] else []) + Select(rows[1..], key, p)
  }

  /** `DELETE ... WHERE month = ? AND year = ?`. */
  function Delete<T>(rows: seq<T>, key: T -> Period, p: Period): (r: seq<T>)
    ensures |r| <= |rows|
    ensures forall k :: 0 <= k < |r| ==> key(r[k]) != p
    decreases |rows|
  {
    if |rows| == 0 then []
    else (if key(rows[0]) == p then [] else [rows[0]]) + Delete(rows[1..], key, p)
  }

  /** `save_expenses` / `save_splits`: nothing for an empty batch; otherwise
      the period of the batch's first row is deleted and the whole batch is
      inserted. */
  function SaveBatch<T>(rows: seq<T>, key: T -> Period, batch: seq<T>): (r: seq<T>)
    ensures |batch| == 0 ==> r == rows
    ensures |batch| > 0 ==> |r| == |rows| - |Select(rows, key, key(batch[0]))| + |batch|
    ensures |batch| > 0 ==> Select(r, key, key(batch[0])) == Select(batch, key, key(batch[0]))
  {
    if |batch| == 0 then rows
    else
      var p := key(batch[0]);
      DeleteCount(rows, key, p);
      SelectAppend(Delete(rows, key, p), batch, key, p);
      SelectDelete(rows, key, p, p);
      Delete(rows, key, p) + batch
  }

  /** What the interface promises of a save: the period's rows are replaced
      by the batch, even when the batch is empty. */
  function ReplacePeriod<T>(rows: seq<T>, key: T -> Period, p: Period, batch: seq<T>): seq<T> {
    Delete(rows, key, p) + batch
  }

  /** All rows of the batch belong to `p`. */
  predicate AllIn<T>(batch: seq<T>, key: T -> Period, p: Period) {
    forall k :: 0 <= k < |batch| ==> key(batch[k]) == p
  }

  lemma {:induction false} SelectAppend<T>(a: seq<T>, b: seq<T>, key: T -> Period, p: Period)
    ensures Select(a + b, key, p) == Select(a, key, p) + Select(b, key, p)
    decreases |a|
  {
    if |a| == 0 {
      assert a + b == b;
    } else {
      assert (a + b)[1..] == a[1..] + b;
      SelectAppend(a[1..], b, key, p);
    }
  }

  /** A batch that lies in one period is selected whole there and not at all
      elsewhere. */
  lemma {:induction false} SelectAllIn<T>(batch: seq<T>, key: T -> Period, p: Period, q: Period)
    requires AllIn(batch, key, p)
    ensures Select(batch, key, q) == if q == p then batch else []
    decreases |batch|
  {
    if |batch| > 0 {
      SelectAllIn(batch[1..], key, p, q);
      assert batch == [batch[0]] + batch[1..];
    }
  }

  /** Deleting a period empties it and leaves every other period as it was. */
  lemma {:induction false} SelectDelete<T>(rows: seq<T>, key: T -> Period, p: Period, q: Period)
    ensures Select(Delete(rows, key, p), key, q) == if q == p then [] else Select(rows, key, q)
    decreases |rows|
  {
    if |rows| > 0 {
      var head := if key(rows[0]) == p then [] else [rows[0]];
      SelectAppend(head, Delete(rows[1..], key, p), key, q);
      SelectDelete(rows[1..], key, p, q);
      SelectAllIn(head, key, key(rows[0]), q);
    }
  }

  /** A delete removes exactly the rows a select of the same period returns. */
  lemma {:induction false} DeleteCount<T>(rows: seq<T>, key: T -> Period, p: Period)
    ensures |Delete(rows, key, p)| + |Select(rows, key, p)| == |rows|
    decreases |rows|
  {
    if |rows| > 0 {
      DeleteCount(rows[1..], key, p);
    }
  }

  /** Replacing a period by a batch of that period: reading the period back
      gives the batch, and every other period is untouched. */
  lemma ReplaceThenSelect<T>(rows: seq<T>, key: T -> Period, p: Period, batch: seq<T>, q: Period)
    requires AllIn(batch, key, p)
    ensures Select(ReplacePeriod(rows, key, p, batch), key, q) == if q == p then batch else Select(rows, key, q)
  {
    SelectAppend(Delete(rows, key, p), batch, key, q);
    SelectDelete(rows, key, p, q);
    SelectAllIn(batch, key, p, q);
  }

  /** A save is that replacement exactly when the batch is not empty or the
      period holds no rows yet; an empty batch leaves old rows behind. */
  lemma SaveBatchReplaces<T>(rows: seq<T>, key: T -> Period, p: Period, batch: seq<T>)
    requires AllIn(batch, key, p)
    ensures SaveBatch(rows, key, batch) == ReplacePeriod(rows, key, p, batch)
        <==> |batch| > 0 || Select(rows, key, p) == []
  {
    DeleteCount(rows, key, p);
    if |batch| == 0 {
      assert ReplacePeriod(rows, key, p, batch) == Delete(rows, key, p);
      if Select(rows, key, p) == [] {
        DeleteAll(rows, key, p);
      }
    }
  }

  /** Deleting a period that holds no rows changes nothing. */
  lemma {:induction false} DeleteAll<T>(rows: seq<T>, key: T -> Period, p: Period)
    requires Select(rows, key, p) == []
    ensures Delete(rows, key, p) == rows
    decreases |rows|
  {
    if |rows| > 0 {
      assert key(rows[0]) != p;
      DeleteAll(rows[1..], key, p);
      assert rows == [rows[0]] + rows[1..];
    }
  }
}
