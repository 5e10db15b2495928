/**
 The item store of balance_handler.py: a table of records, the four flags
 that split it into the queues of a `PaymentStatus`, and the edits
 `add_balances`, `update_balances_by_id` and `remove_balances_by_id`.
 */
module Handler {
  import opened Wrappers
  import opened Balances

  /** The four queues the flags select. */
  datatype Queue = ActiveMonthly | ActiveYearly | PendingMonthly | PendingYearly

  predicate MonthlyFlag(r: Record) {
    r.spreadType == Monthly && r.startMonth.None?
  }

  predicate YearlyFlag(r: Record) {
    r.spreadType == Yearly && r.startMonth.None?
  }

  predicate PendingMonthlyFlag(r: Record) {
    r.spreadType == Monthly && r.startMonth.Some?
  }

  predicate PendingYearlyFlag(r: Record) {
    r.spreadType == Yearly && r.startMonth.Some?
  }

  /** The queue whose flag a record raises; exactly one flag holds. */
  function QueueOf(r: Record): (q: Queue)
    ensures q == ActiveMonthly <==> MonthlyFlag(r)
    ensures q == ActiveYearly <==> YearlyFlag(r)
    ensures q == PendingMonthly <==> PendingMonthlyFlag(r)
    ensures q == PendingYearly <==> PendingYearlyFlag(r)
  {
    match (r.spreadType, r.startMonth)
    case (Monthly, None) => ActiveMonthly
    case (Yearly, None) => ActiveYearly
    case (Monthly, Some(_)) => PendingMonthly
    case (Yearly, Some(_)) => PendingYearly
  }

  /** `df[flag]`: the rows of one queue, in table order. */
  function Select(rows: seq<Record>, q: Queue): (r: seq<Record>)
    ensures forall x :: x in r <==> x in rows && QueueOf(x) == q
    decreases |rows|
  {
    if |rows| == 0 then []
    else Select(rows[..|rows| - 1], q) + (if QueueOf(rows[|rows| - 1]) == q then [rows[|rows| - 1]] else [])
  }

  /** Selecting keeps table order: the selection of two tables one after the
      other is the selection of the first followed by that of the second. */
  lemma {:induction false} SelectAppend(a: seq<Record>, b: seq<Record>, q: Queue)
    ensures Select(a + b, q) == Select(a, q) + Select(b, q)
    decreases |b|
  {
    if |b| == 0 {
      assert a + b == a;
    } else {
      var init, x := b[..|b| - 1], b[|b| - 1];
      assert a + b == (a + init) + [x];
      assert b == init + [x];
      SelectSnoc(a + init, x, q);
      SelectSnoc(init, x, q);
      SelectAppend(a, init, q);
    }
  }

  /** A row appended to a table is appended to its own queue's selection. */
  lemma SelectSnoc(rows: seq<Record>, x: Record, q: Queue)
    ensures Select(rows + [x], q) == Select(rows, q) + (if QueueOf(x) == q then [x] else [])
  {
    assert (rows + [x])[..|rows|] == rows;
  }

  /** A table of one row selects that row exactly for its own queue. */
  lemma SelectSingle(x: Record, q: Queue)
    ensures Select([x], q) == if QueueOf(x) == q then [x] else []
  {
    assert [x][..0] == [];
  }

  /** The rows of all four selections together. */
  function Selected(rows: seq<Record>): multiset<Record> {
    multiset(Select(rows, ActiveMonthly)) + multiset(Select(rows, ActiveYearly))
      + multiset(Select(rows, PendingMonthly)) + multiset(Select(rows, PendingYearly))
  }

  /** The four selections split the table: every row lands in exactly one. */
  lemma {:induction false} SelectPartitions(rows: seq<Record>)
    ensures Selected(rows) == multiset(rows)
    decreases |rows|
  {
    if |rows| > 0 {
      var init, x := rows[..|rows| - 1], rows[|rows| - 1];
      SelectPartitions(init);
      assert rows == init + [x];
      SelectedLast(init, x);
    }
  }

  /** A row appended to the table joins the selection of its own queue only. */
  lemma SelectedLast(init: seq<Record>, x: Record)
    ensures Selected(init + [x]) == Selected(init) + multiset{x}
  {
    var rows := init + [x];
    assert rows[..|rows| - 1] == init;
    assert Select(rows, QueueOf(x)) == Select(init, QueueOf(x)) + [x];
  }

  /** `Balance(**row)` for every row of one queue. */
  function Items(rows: seq<Record>, q: Queue): (items: seq<Balance>)
    ensures |items| == |Select(rows, q)|
    ensures forall i :: 0 <= i < |items| ==> items[i] == FromRecord(Select(rows, q)[i])
  {
    var sel := Select(rows, q);
    seq(|sel|, i requires 0 <= i < |sel| => FromRecord(sel[i]))
  }

  /** `add_balances`: the `to_csv` records of the items appended, in order;
      an empty list leaves the table alone. */
  function AddBalances(rows: seq<Record>, items: seq<Balance>): (r: seq<Record>)
    ensures |r| == |rows| + |items| && r[..|rows|] == rows
    ensures forall i :: 0 <= i < |items| ==> r[|rows| + i] == ToCsv(items[i])
    ensures forall i :: 0 <= i < |items| ==> FromRecord(r[|rows| + i]) == items[i]
  {
    if |items| == 0 then rows
    else
      var added := seq(|items|, i requires 0 <= i < |items| => ToCsv(items[i]));
      RowsRoundTrip(items, added);
      rows + added
  }

  lemma RowsRoundTrip(items: seq<Balance>, added: seq<Record>)
    requires |added| == |items| && forall i :: 0 <= i < |items| ==> added[i] == ToCsv(items[i])
    ensures forall i :: 0 <= i < |items| ==> FromRecord(added[i]) == items[i]
  {
    forall i | 0 <= i < |items|
      ensures FromRecord(added[i]) == items[i]
    {
      CsvRoundTrip(items[i]);
    }
  }

  /** Every record written by `add_balances` carries a start month, so it is
      selected as pending whatever the item's own start was. */
  lemma AddedRowsArePending(rows: seq<Record>, items: seq<Balance>)
    ensures forall i :: |rows| <= i < |AddBalances(rows, items)| ==>
      QueueOf(AddBalances(rows, items)[i]) in {PendingMonthly, PendingYearly}
  {
    var r := AddBalances(rows, items);
    forall i | |rows| <= i < |r|
      ensures r[i].startMonth.Some?
    {
      var j := i - |rows|;
      assert r[|rows| + j] == ToCsv(items[j]);
    }
  }

  predicate HasId(rows: seq<Record>, id: string) {
    exists i :: 0 <= i < |rows| && rows[i].id == id
  }

  /** Reference definition: the last of `items` with the given id. */
  function LastWithId(items: seq<Balance>, id: string): (b: Option<Balance>)
    ensures b.Some? ==> b.value in items && b.value.id == id
    ensures b.None? <==> forall j :: 0 <= j < |items| ==> items[j].id != id
    decreases |items|
  {
    if |items| == 0 then None
    else
      var later := LastWithId(items[1..], id);
      if later.Some? then later
      else if items[0].id == id then Some(items[0])
      else
        assert forall j :: 1 <= j < |items| ==> items[j] == items[1..][j - 1];
        None
  }

  /** One pass of the loop body: every row with the item's id is overwritten
      by the item's record. */
  function Overwrite(rows: seq<Record>, b: Balance): (r: seq<Record>)
    ensures |r| == |rows|
    ensures forall i :: 0 <= i < |rows| ==> r[i].id == rows[i].id
    ensures forall i :: 0 <= i < |rows| ==> r[i] == if rows[i].id == b.id then ToCsv(b) else rows[i]
  {
    seq(|rows|, i requires 0 <= i < |rows| => if rows[i].id == b.id then ToCsv(b) else rows[i])
  }

  /** What `update_balances_by_id` leaves: the table, and the id whose
      absence raised `ValueError`, if any. */
  datatype Updated = Updated(rows: seq<Record>, missing: Option<string>)

  /** `update_balances_by_id`: items are applied in order; the first item
      whose id is not in the table stops the loop with an error, the updates
      before it staying in place. Without an error every row whose id some
      item carries holds the record of the last such item. */
  function UpdateBalancesById(rows: seq<Record>, items: seq<Balance>): (r: Updated)
    ensures |r.rows| == |rows|
    ensures forall i :: 0 <= i < |rows| ==> r.rows[i].id == rows[i].id
    ensures r.missing.None? <==> forall j :: 0 <= j < |items| ==> HasId(rows, items[j].id)
    ensures r.missing.None? ==> forall i :: 0 <= i < |rows| ==>
      r.rows[i] == match LastWithId(items, rows[i].id) case Some(b) => ToCsv(b) case None => rows[i]
    decreases |items|
  {
    if |items| == 0 then Updated(rows, None)
    else if HasId(rows, items[0].id) then
      var once := Overwrite(rows, items[0]);
      SameIds(rows, once);
      var r := UpdateBalancesById(once, items[1..]);
      assert forall j :: 1 <= j < |items| ==> items[j] == items[1..][j - 1];
      r
    else
      Updated(rows, Some(items[0].id))
  }

  lemma SameIds(a: seq<Record>, b: seq<Record>)
    requires |a| == |b| && forall i :: 0 <= i < |a| ==> a[i].id == b[i].id
    ensures forall id :: HasId(a, id) <==> HasId(b, id)
  {
    forall id | HasId(a, id)
      ensures HasId(b, id)
    {
      var i :| 0 <= i < |a| && a[i].id == id;
      assert b[i].id == id;
    }
    forall id | HasId(b, id)
      ensures HasId(a, id)
    {
      var i :| 0 <= i < |b| && b[i].id == id;
      assert a[i].id == id;
    }
  }

  /** On error the reported id is that of the first item whose id is not in
      the table, and the table holds exactly the updates of the items before
      it. */
  lemma {:induction false} UpdateStopsAtFirstMissing(rows: seq<Record>, items: seq<Balance>, j: int)
    requires 0 <= j < |items| && !HasId(rows, items[j].id)
    requires forall i :: 0 <= i < j ==> HasId(rows, items[i].id)
    ensures UpdateBalancesById(rows, items).missing == Some(items[j].id)
    ensures UpdateBalancesById(rows, items).rows == UpdateBalancesById(rows, items[..j]).rows
    decreases j
  {
    if j > 0 {
      var once := Overwrite(rows, items[0]);
      SameIds(rows, once);
      assert items[1..][j - 1] == items[j];
      UpdateStopsAtFirstMissing(once, items[1..], j - 1);
      assert items[..j][1..] == items[1..][..j - 1];
    }
  }

  /** `remove_balances_by_id`: the rows whose id is not listed, in order. An
      empty list is an early return, which gives the same table. */
  function RemoveBalancesById(rows: seq<Record>, ids: seq<string>): (r: seq<Record>)
    ensures forall x :: x in r <==> x in rows && x.id !in ids
    ensures |r| <= |rows|
    ensures |ids| == 0 ==> r == rows
    decreases |rows|
  {
    if |ids| == 0 then rows
    else if |rows| == 0 then []
    else
      var last := rows[|rows| - 1];
      RemoveBalancesById(rows[..|rows| - 1], ids) + (if last.id in ids then [] else [last])
  }

  /** Removing keeps the relative order: the result is the table restricted to
      the rows with unlisted ids. */
  lemma {:induction false} RemoveKeepsOrder(a: seq<Record>, b: seq<Record>, ids: seq<string>)
    ensures RemoveBalancesById(a + b, ids) == RemoveBalancesById(a, ids) + RemoveBalancesById(b, ids)
    decreases |b|
  {
    if |ids| > 0 && |b| > 0 {
      assert (a + b)[..|a + b| - 1] == a + b[..|b| - 1];
      RemoveKeepsOrder(a, b[..|b| - 1], ids);
    } else if |b| == 0 {
      assert a + b == a;
    }
  }

  /** Removing the same ids twice is removing them once, and a table with no
      listed id is left as it is. */
  lemma {:induction false} RemoveIdempotent(rows: seq<Record>, ids: seq<string>)
    ensures RemoveBalancesById(RemoveBalancesById(rows, ids), ids) == RemoveBalancesById(rows, ids)
    decreases |rows|
  {
    if |ids| > 0 && |rows| > 0 {
      var init := rows[..|rows| - 1];
      var last := rows[|rows| - 1];
      RemoveIdempotent(init, ids);
      var tail := if last.id in ids then [] else [last];
      RemoveKeepsOrder(RemoveBalancesById(init, ids), tail, ids);
      assert RemoveBalancesById(tail, ids) == tail by {
        if |tail| == 1 {
          assert tail[..0] == [];
        }
      }
    }
  }
}
