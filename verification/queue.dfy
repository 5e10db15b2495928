/**
 The four schedule queues of `PaymentStatus` (structs/payment.py): the
 descending, stable `list.sort(key=..., reverse=True)` applied to them, and
 `update_metric`, which pops from the tail every item whose key equals the
 current cycle index.
 */
module Queues {
  import opened Wrappers
  import opened Balances
  import opened Breakdowns

  /** The key a queue is sorted and popped by: `_expiry` for the active
      queues, `_start_month` for the pending ones. */
  datatype Order = ByExpiry | ByStart

  /** The sort key of an item. The type is reused from `_expiry` for both
      orders, since expiries and start months are both cycle numbers: a
      start month `m` is the key `At(m)`, and only an expiry can be `Never`. */
  function Key(o: Order, b: Balance): Expiry {
    match o
    case ByExpiry => b.expiry
    case ByStart => At(b.startMonth)
  }

  /** `a >= b` on keys, `Never` being +infinity. */
  predicate AtLeast(a: Expiry, b: Expiry) {
    a.Never? || (b.At? && a.cycle >= b.cycle)
  }

  /** Sorted by key, largest first. */
  predicate Sorted(o: Order, s: seq<Balance>) {
    forall i, j :: 0 <= i < j < |s| ==> AtLeast(Key(o, s[i]), Key(o, s[j]))
  }

  /** A sorted list stays sorted with a head at least as large as its first
      element. */
  lemma ConsSorted(o: Order, h: Balance, t: seq<Balance>)
    requires Sorted(o, t)
    requires |t| > 0 ==> AtLeast(Key(o, h), Key(o, t[0]))
    ensures Sorted(o, [h] + t)
  {
    forall j | 0 <= j < |t|
      ensures AtLeast(Key(o, h), Key(o, t[j]))
    {
      assert AtLeast(Key(o, t[0]), Key(o, t[j])) || j == 0;
    }
  }

  /** Places `x` after every element whose key is at least its own. */
  function Insert(o: Order, x: Balance, t: seq<Balance>): (r: seq<Balance>)
    requires Sorted(o, t)
    ensures Sorted(o, r)
    ensures |r| == |t| + 1
    ensures r[0] == x || (|t| > 0 && r[0] == t[0])
    decreases |t|
  {
    if |t| == 0 then [x]
    else if AtLeast(Key(o, t[0]), Key(o, x)) then
      var rest := Insert(o, x, t[1..]);
      assert |t| > 1 ==> AtLeast(Key(o, t[0]), Key(o, t[1..][0]));
      ConsSorted(o, t[0], rest);
      [t[0]] + rest
    else
      ConsSorted(o, x, t);
      [x] + t
  }

  /** Inserting adds exactly `x` to the elements. */
  lemma {:induction false} InsertPermutes(o: Order, x: Balance, t: seq<Balance>)
    requires Sorted(o, t)
    ensures multiset(Insert(o, x, t)) == multiset(t) + multiset{x}
    decreases |t|
  {
    if |t| > 0 && AtLeast(Key(o, t[0]), Key(o, x)) {
      InsertPermutes(o, x, t[1..]);
      assert t == [t[0]] + t[1..];
    }
  }

  /** `list.sort(key=Key, reverse=True)`: an insertion sort of the elements in
      their original order. */
  function Sort(o: Order, s: seq<Balance>): (r: seq<Balance>)
    ensures Sorted(o, r)
    ensures |r| == |s|
    decreases |s|
  {
    if |s| == 0 then []
    else Insert(o, s[|s| - 1], Sort(o, s[..|s| - 1]))
  }

  /** Sorting only reorders: the result holds the same elements, each as
      often. */
  lemma {:induction false} SortPermutes(o: Order, s: seq<Balance>)
    ensures multiset(Sort(o, s)) == multiset(s)
    decreases |s|
  {
    if |s| > 0 {
      SortPermutes(o, s[..|s| - 1]);
      InsertPermutes(o, s[|s| - 1], Sort(o, s[..|s| - 1]));
      assert s == s[..|s| - 1] + [s[|s| - 1]];
    }
  }

  /** The elements whose key is `k`, in their order in `s`. */
  function WithKey(o: Order, s: seq<Balance>, k: Expiry): seq<Balance>
    decreases |s|
  {
    if |s| == 0 then []
    else WithKey(o, s[..|s| - 1], k) + (if Key(o, s[|s| - 1]) == k then [s[|s| - 1]] else [])
  }

  lemma {:induction false} WithKeyAppend(o: Order, a: seq<Balance>, b: seq<Balance>, k: Expiry)
    ensures WithKey(o, a + b, k) == WithKey(o, a, k) + WithKey(o, b, k)
    decreases |b|
  {
    if |b| == 0 {
      assert a + b == a;
    } else {
      assert (a + b)[..|a + b| - 1] == a + b[..|b| - 1];
      WithKeyAppend(o, a, b[..|b| - 1], k);
    }
  }

  lemma {:induction false} WithKeyNone(o: Order, s: seq<Balance>, k: Expiry)
    requires forall i :: 0 <= i < |s| ==> Key(o, s[i]) != k
    ensures WithKey(o, s, k) == []
    decreases |s|
  {
    if |s| > 0 {
      WithKeyNone(o, s[..|s| - 1], k);
    }
  }

  lemma WithKeySingle(o: Order, x: Balance, k: Expiry)
    ensures WithKey(o, [x], k) == if Key(o, x) == k then [x] else []
  {
    assert [x][..0] == [];
  }

  /** Inserting keeps the relative order of equal keys, the new element going
      after the elements already there. */
  lemma {:induction false} InsertStable(o: Order, x: Balance, t: seq<Balance>, k: Expiry)
    requires Sorted(o, t)
    ensures WithKey(o, Insert(o, x, t), k) == WithKey(o, t, k) + WithKey(o, [x], k)
    decreases |t|
  {
    if |t| == 0 {
      WithKeySingle(o, x, k);
    } else if AtLeast(Key(o, t[0]), Key(o, x)) {
      InsertStable(o, x, t[1..], k);
      InsertBehindStable(o, x, t, k);
    } else {
      InsertAheadStable(o, x, t, k);
    }
  }

  lemma InsertBehindStable(o: Order, x: Balance, t: seq<Balance>, k: Expiry)
    requires Sorted(o, t) && |t| > 0 && AtLeast(Key(o, t[0]), Key(o, x))
    requires WithKey(o, Insert(o, x, t[1..]), k) == WithKey(o, t[1..], k) + WithKey(o, [x], k)
    ensures WithKey(o, Insert(o, x, t), k) == WithKey(o, t, k) + WithKey(o, [x], k)
  {
    var rest := Insert(o, x, t[1..]);
    InsertBehind(o, x, t);
    WithKeyAppend(o, [t[0]], rest, k);
    WithKeyCons(o, t, k);
  }

  lemma InsertBehind(o: Order, x: Balance, t: seq<Balance>)
    requires Sorted(o, t) && |t| > 0 && AtLeast(Key(o, t[0]), Key(o, x))
    ensures Insert(o, x, t) == [t[0]] + Insert(o, x, t[1..])
  {
  }

  lemma WithKeyCons(o: Order, t: seq<Balance>, k: Expiry)
    requires |t| > 0
    ensures WithKey(o, t, k) == WithKey(o, [t[0]], k) + WithKey(o, t[1..], k)
  {
    assert t == [t[0]] + t[1..];
    WithKeyAppend(o, [t[0]], t[1..], k);
  }

  lemma InsertAheadStable(o: Order, x: Balance, t: seq<Balance>, k: Expiry)
    requires Sorted(o, t) && |t| > 0 && !AtLeast(Key(o, t[0]), Key(o, x))
    ensures WithKey(o, Insert(o, x, t), k) == WithKey(o, t, k) + WithKey(o, [x], k)
  {
    assert Insert(o, x, t) == [x] + t;
    WithKeySingle(o, x, k);
    WithKeyAppend(o, [x], t, k);
    if Key(o, x) == k {
      forall i | 0 <= i < |t|
        ensures Key(o, t[i]) != k
      {
        assert AtLeast(Key(o, t[0]), Key(o, t[i]));
      }
      WithKeyNone(o, t, k);
    }
  }

  /** Python's sort is stable: for every key, the elements with that key keep
      their original relative order. */
  lemma {:induction false} SortStable(o: Order, s: seq<Balance>, k: Expiry)
    ensures WithKey(o, Sort(o, s), k) == WithKey(o, s, k)
    decreases |s|
  {
    if |s| > 0 {
      var x := s[|s| - 1];
      SortStable(o, s[..|s| - 1], k);
      InsertStable(o, x, Sort(o, s[..|s| - 1]), k);
      WithKeySingle(o, x, k);
    }
  }

  lemma {:induction false} InsertAtEnd(o: Order, x: Balance, t: seq<Balance>)
    requires Sorted(o, t)
    requires forall i :: 0 <= i < |t| ==> AtLeast(Key(o, t[i]), Key(o, x))
    ensures Insert(o, x, t) == t + [x]
    decreases |t|
  {
    if |t| > 0 {
      InsertAtEnd(o, x, t[1..]);
    }
  }

  /** Sorting an already sorted queue leaves it as it is (so re-sorting in
      `copy` changes nothing). */
  lemma {:induction false} SortSorted(o: Order, s: seq<Balance>)
    requires Sorted(o, s)
    ensures Sort(o, s) == s
    decreases |s|
  {
    if |s| > 0 {
      var init := s[..|s| - 1];
      SortSorted(o, init);
      InsertAtEnd(o, s[|s| - 1], init);
      assert init + [s[|s| - 1]] == s;
    }
  }

  /** The popping stopped at position `n`: nothing is left, or the item
      left at the tail does not have key `occ`. */
  predicate StopsBefore(o: Order, s: seq<Balance>, n: int, occ: int)
    requires 0 <= n <= |s|
  {
    n == 0 || Key(o, s[n - 1]) != At(occ)
  }

  /** What `update_metric` leaves behind and what it accumulated. */
  datatype Popped = Popped(rest: seq<Balance>, breakdown: Breakdown)

  /** Folding a suffix that ends in `x` adds `x` last. */
  lemma FoldSuffixSnoc(s: seq<Balance>, n: int)
    requires 0 <= n < |s|
    ensures Fold(s[n..]) == AddFinance(Fold(s[..|s| - 1][n..]), s[|s| - 1])
  {
    assert s[n..][..|s[n..]| - 1] == s[..|s| - 1][n..];
    assert s[n..][|s[n..]| - 1] == s[|s| - 1];
  }

  /** The `while` loop of `update_metric`: pop the tail while its key equals
      `occ`, adding each popped item to `acc`. */
  function PopRun(o: Order, s: seq<Balance>, occ: int, acc: Breakdown): (r: Popped)
    ensures |r.rest| <= |s| && r.rest == s[..|r.rest|]
    ensures forall i :: |r.rest| <= i < |s| ==> Key(o, s[i]) == At(occ)
    ensures StopsBefore(o, s, |r.rest|, occ)
    ensures r.breakdown == Add(acc, Fold(s[|r.rest|..]))
    decreases |s|
  {
    if |s| > 0 && Key(o, s[|s| - 1]) == At(occ) then
      var x := s[|s| - 1];
      var r := PopRun(o, s[..|s| - 1], occ, AddFinance(acc, x));
      FoldSuffixSnoc(s, |r.rest|);
      AddFinanceSwap(acc, Fold(s[..|s| - 1][|r.rest|..]), x);
      r
    else
      assert s[|s|..] == [];
      Popped(s, acc)
  }

  /** `update_metric(metric, occ)`, reading the tail's key where the source
      indexes it with `[0]`. The popped items are exactly a maximal tail run
      of key `occ`, and the result is their fold; when the tail's key is not
      `occ` (or the list is empty) nothing changes and the ledger is zero. */
  function UpdateMetric(o: Order, s: seq<Balance>, occ: int): (r: Popped)
    ensures |r.rest| <= |s| && r.rest == s[..|r.rest|]
    ensures forall i :: |r.rest| <= i < |s| ==> Key(o, s[i]) == At(occ)
    ensures StopsBefore(o, s, |r.rest|, occ)
    ensures r.breakdown == Fold(s[|r.rest|..])
    ensures (|s| == 0 || Key(o, s[|s| - 1]) != At(occ)) ==> r == Popped(s, Zero)
  {
    if |s| == 0 || Key(o, s[|s| - 1]) != At(occ) then
      WholeAndEmpty(s);
      Popped(s, Zero)
    else
      var r := PopRun(o, s, occ, Zero);
      AddZero(Fold(s[|r.rest|..]));
      r
  }

  lemma WholeAndEmpty(s: seq<Balance>)
    ensures s[..|s|] == s && s[|s|..] == []
  {
  }

  /** What is left of a sorted queue is still sorted. */
  lemma UpdateMetricKeepsSorted(o: Order, s: seq<Balance>, occ: int)
    requires Sorted(o, s)
    ensures Sorted(o, UpdateMetric(o, s, occ).rest)
  {
    var r := UpdateMetric(o, s, occ);
    PrefixSorted(o, s, |r.rest|);
  }

  lemma PrefixSorted(o: Order, s: seq<Balance>, n: nat)
    requires Sorted(o, s) && n <= |s|
    ensures Sorted(o, s[..n])
  {
  }

  /** `update_metric` as written at structs/payment.py:96: the tail item is
      indexed with `[0]`, which a `Balance` does not support, so any
      non-empty list raises; `None` is that exception. */
  function UpdateMetricAsWritten(s: seq<Balance>, occ: int): (r: Option<Popped>)
    ensures r.None? <==> |s| > 0
    ensures forall o :: r.Some? ==> r.value == UpdateMetric(o, s, occ)
  {
    if |s| > 0 then None else Some(Popped(s, Zero))
  }

  /** On a sorted queue none of whose keys has passed `occ`, `update_metric`
      pops exactly the items whose key is `occ`. */
  lemma PopsEveryDueItem(o: Order, s: seq<Balance>, occ: int)
    requires Sorted(o, s)
    requires forall i :: 0 <= i < |s| ==> AtLeast(Key(o, s[i]), At(occ))
    ensures forall i :: 0 <= i < |s| ==> (i < |UpdateMetric(o, s, occ).rest| <==> Key(o, s[i]) != At(occ))
    ensures UpdateMetric(o, s, occ).breakdown == Fold(WithKey(o, s, At(occ)))
  {
    var r := UpdateMetric(o, s, occ);
    var n := |r.rest|;
    if n > 0 {
      StrictlyAboveLast(o, s, n, occ);
    }
    DueItemsAreSuffix(o, s, n, occ);
  }

  /** When exactly the suffix from `n` has key `occ`, that suffix is the
      sub-sequence of items with key `occ`. */
  lemma DueItemsAreSuffix(o: Order, s: seq<Balance>, n: int, occ: int)
    requires 0 <= n <= |s|
    requires forall i :: 0 <= i < n ==> Key(o, s[i]) != At(occ)
    requires forall i :: n <= i < |s| ==> Key(o, s[i]) == At(occ)
    ensures WithKey(o, s, At(occ)) == s[n..]
  {
    WithKeySplit(o, s, n, At(occ));
    WithKeyNone(o, s[..n], At(occ));
    WithKeyAll(o, s[n..], At(occ));
  }

  lemma WithKeySplit(o: Order, s: seq<Balance>, n: int, k: Expiry)
    requires 0 <= n <= |s|
    ensures WithKey(o, s, k) == WithKey(o, s[..n], k) + WithKey(o, s[n..], k)
  {
    assert s == s[..n] + s[n..];
    WithKeyAppend(o, s[..n], s[n..], k);
  }

  lemma StrictlyAboveLast(o: Order, s: seq<Balance>, n: int, occ: int)
    requires Sorted(o, s) && 0 < n <= |s|
    requires AtLeast(Key(o, s[n - 1]), At(occ)) && Key(o, s[n - 1]) != At(occ)
    ensures forall i :: 0 <= i < n ==> Key(o, s[i]) != At(occ)
  {
    forall i | 0 <= i < n
      ensures Key(o, s[i]) != At(occ)
    {
      assert AtLeast(Key(o, s[i]), Key(o, s[n - 1]));
    }
  }

  lemma {:induction false} WithKeyAll(o: Order, s: seq<Balance>, k: Expiry)
    requires forall i :: 0 <= i < |s| ==> Key(o, s[i]) == k
    ensures WithKey(o, s, k) == s
    decreases |s|
  {
    if |s| > 0 {
      WithKeyAll(o, s[..|s| - 1], k);
    }
  }
}
