/**
 The four-bucket ledger `FinancialBreakdown` of structs/payment.py: routing of
 one item's signed contribution (`add_finance`), elementwise `+`, the `-`
 whose credit bucket takes away the other operand's debit, and
 the fold of `add_finance` over a list of items (`compute_active_metric`),
 characterised by per-kind sums.
 */
module Breakdowns {
  import opened Wrappers
  import opened Balances

  datatype Breakdown = Breakdown(credit: real, debit: real, investment: real, payment: real)

  /** The ledger a fresh `FinancialBreakdown()` starts with. */
  const Zero := Breakdown(0.0, 0.0, 0.0, 0.0)

  /** The bucket that items of `kind` are routed to: expense to debit, credit to
      credit, payment to payment, investment to investment. */
  function Bucket(b: Breakdown, kind: BalanceType): real {
    match kind
    case Expense => b.debit
    case Credit => b.credit
    case Payment => b.payment
    case Investment => b.investment
  }

  /** Every field of a ledger is the bucket of exactly one kind. */
  lemma BucketsDetermine(a: Breakdown, b: Breakdown)
    requires forall k :: Bucket(a, k) == Bucket(b, k)
    ensures a == b
  {
    assert Bucket(a, Expense) == Bucket(b, Expense);
    assert Bucket(a, Credit) == Bucket(b, Credit);
    assert Bucket(a, Payment) == Bucket(b, Payment);
    assert Bucket(a, Investment) == Bucket(b, Investment);
  }

  /** `add_finance`, with the item's own `balance_value` added. */
  function AddFinance(b: Breakdown, item: Balance): Breakdown {
    match item.kind
    case Expense => b.(debit := b.debit + BalanceValue(item))
    case Credit => b.(credit := b.credit + BalanceValue(item))
    case Payment => b.(payment := b.payment + BalanceValue(item))
    case Investment => b.(investment := b.investment + BalanceValue(item))
  }

  /** `add_finance` as written at structs/payment.py:13-24: the expense branch
      adds the class attribute `Balance.balance_value` (a property object) to
      a float, which raises; `None` is that exception. The two `if`/`elif`
      chains are kept apart as in the source. */
  function AddFinanceAsWritten(b: Breakdown, item: Balance): (r: Option<Breakdown>)
    ensures r.None? <==> item.kind == Expense
    ensures r.Some? ==> r.value == AddFinance(b, item)
  {
    var first: Option<Breakdown> :=
      if item.kind == Expense then None
      else if item.kind == Credit then Some(b.(credit := b.credit + BalanceValue(item)))
      else Some(b);
    match first
    case None => None
    case Some(b1) =>
      if item.kind == Payment then Some(b1.(payment := b1.payment + BalanceValue(item)))
      else if item.kind == Investment then Some(b1.(investment := b1.investment + BalanceValue(item)))
      else Some(b1)
  }

  /** `add_finance` adds the item's signed value to the bucket of its kind and
      leaves the other three buckets as they were. */
  lemma AddFinanceRoutes(b: Breakdown, item: Balance)
    ensures Bucket(AddFinance(b, item), item.kind) == Bucket(b, item.kind) + BalanceValue(item)
    ensures forall k :: k != item.kind ==> Bucket(AddFinance(b, item), k) == Bucket(b, k)
  {
  }

  /** `+` and `+=`: elementwise sum. */
  function Add(a: Breakdown, b: Breakdown): Breakdown {
    var Breakdown(credit, debit, investment, payment) := a;
    var Breakdown(credit', debit', investment', payment') := b;
    Breakdown(credit + credit', debit + debit', investment + investment', payment + payment')
  }

  /** `-`: elementwise on debit, investment and payment, but the credit of the
      result takes away the other operand's debit, not its credit. */
  function Sub(a: Breakdown, b: Breakdown): Breakdown {
    var Breakdown(credit, debit, investment, payment) := a;
    var Breakdown(_, debit', investment', payment') := b;
    Breakdown(credit - debit', debit - debit', investment - investment', payment - payment')
  }

  /** Every bucket of a sum is the sum of the buckets. */
  lemma AddBuckets(a: Breakdown, b: Breakdown)
    ensures forall k :: Bucket(Add(a, b), k) == Bucket(a, k) + Bucket(b, k)
  {
  }

  /** Every bucket of a difference but the credit is the difference of the
      buckets; the credit bucket loses the other operand's debit. */
  lemma SubBuckets(a: Breakdown, b: Breakdown)
    ensures forall k :: k != Credit ==> Bucket(Sub(a, b), k) == Bucket(a, k) - Bucket(b, k)
    ensures Bucket(Sub(a, b), Credit) == Bucket(a, Credit) - Bucket(b, Expense)
  {
  }

  /** Subtracting undoes adding, in either order, exactly when the operand's
      credit equals its debit. */
  lemma SubUndoesAdd(a: Breakdown, b: Breakdown)
    ensures Add(Sub(a, b), b) == a <==> b.credit == b.debit
    ensures Sub(Add(a, b), b) == a <==> b.credit == b.debit
  {
  }

  /** A ledger minus itself is zero except for the credit bucket, which keeps
      the difference of its credit and its debit. */
  lemma SubSelf(a: Breakdown)
    ensures Sub(a, a) == Breakdown(a.credit - a.debit, 0.0, 0.0, 0.0)
    ensures Sub(a, a) == Zero <==> a.credit == a.debit
  {
  }

  /** Taking a ledger away and adding it back leaves every bucket as it was
      except the credit, which gains the ledger's credit less its debit: an
      expense of 10 taken away and added back to nothing leaves a credit of 10. */
  lemma SubLeavesCredit(a: Breakdown, b: Breakdown)
    ensures Add(Sub(a, b), b) == a.(credit := a.credit + b.credit - b.debit)
  {
  }

  lemma AddCommutes(a: Breakdown, b: Breakdown)
    ensures Add(a, b) == Add(b, a)
  {
  }

  lemma AddAssociates(a: Breakdown, b: Breakdown, c: Breakdown)
    ensures Add(Add(a, b), c) == Add(a, Add(b, c))
  {
  }

  lemma AddZero(a: Breakdown)
    ensures Add(a, Zero) == a && Add(Zero, a) == a
  {
  }

  /** The contribution of one item to the bucket of `kind`. */
  function Contribution(item: Balance, kind: BalanceType): real {
    if item.kind == kind then BalanceValue(item) else 0.0
  }

  /** Reference definition: the total signed value of the items of `kind`. */
  function Sum(items: seq<Balance>, kind: BalanceType): real
    decreases |items|
  {
    if |items| == 0 then 0.0
    else Sum(items[..|items| - 1], kind) + Contribution(items[|items| - 1], kind)
  }

  /** `compute_active_metric`: `add_finance` folded over the list, left to
      right, from a zero ledger. */
  function Fold(items: seq<Balance>): Breakdown
    decreases |items|
  {
    if |items| == 0 then Zero
    else AddFinance(Fold(items[..|items| - 1]), items[|items| - 1])
  }

  /** Each bucket of `compute_active_metric` holds the total signed value of
      the items of its kind. */
  lemma {:induction false} FoldIsSum(items: seq<Balance>)
    ensures Fold(items).credit == Sum(items, Credit) && Fold(items).debit == Sum(items, Expense)
    ensures Fold(items).investment == Sum(items, Investment) && Fold(items).payment == Sum(items, Payment)
    decreases |items|
  {
    if |items| > 0 {
      FoldIsSum(items[..|items| - 1]);
    }
  }

  lemma {:induction false} SumAppend(a: seq<Balance>, b: seq<Balance>, kind: BalanceType)
    ensures Sum(a + b, kind) == Sum(a, kind) + Sum(b, kind)
    decreases |b|
  {
    if |b| == 0 {
      assert a + b == a;
    } else {
      var b' := b[..|b| - 1];
      assert (a + b)[..|a + b| - 1] == a + b';
      assert (a + b)[|a + b| - 1] == b[|b| - 1];
      SumAppend(a, b', kind);
    }
  }

  lemma AddFinanceShifts(a: Breakdown, b: Breakdown, x: Balance)
    ensures AddFinance(Add(a, b), x) == Add(a, AddFinance(b, x))
  {
  }

  lemma AddFinanceSwap(a: Breakdown, b: Breakdown, x: Balance)
    ensures Add(AddFinance(a, x), b) == Add(a, AddFinance(b, x))
  {
  }

  /** Folding a concatenation is adding the two folds. */
  lemma {:induction false} FoldAppend(a: seq<Balance>, b: seq<Balance>)
    ensures Fold(a + b) == Add(Fold(a), Fold(b))
    decreases |b|
  {
    if |b| == 0 {
      assert a + b == a;
    } else {
      var b' := b[..|b| - 1];
      assert (a + b)[..|a + b| - 1] == a + b';
      var x := b[|b| - 1];
      assert (a + b)[|a + b| - 1] == x;
      FoldAppend(a, b');
      assert Fold(a + b) == AddFinance(Fold(a + b'), x);
      assert Fold(b) == AddFinance(Fold(b'), x);
      AddFinanceShifts(Fold(a), Fold(b'), x);
    }
  }

  /** The item a ledger gains by `add_finance` is the fold of that one item. */
  lemma AddFinanceIsAddSingle(b: Breakdown, x: Balance)
    ensures AddFinance(b, x) == Add(b, Fold([x]))
  {
    assert [x][..0] == [];
  }

  /** Every item has a positive magnitude and frequency. */
  predicate Positive(items: seq<Balance>) {
    forall b :: b in items ==> b.value > 0.0 && b.frequency > 0.0
  }

  /** Reordering keeps every item positive. */
  lemma PositivePermutation(a: seq<Balance>, b: seq<Balance>)
    requires multiset(a) == multiset(b) && Positive(b)
    ensures Positive(a)
  {
    forall x | x in a
      ensures x in b
    {
      assert x in multiset(a);
    }
  }

  /** The debit side of the ledger: with positive magnitudes and frequencies,
      the debit and payment buckets of a fold are never positive and the
      credit and investment buckets never negative. */
  lemma {:induction false} FoldSigns(items: seq<Balance>)
    requires Positive(items)
    ensures Fold(items).debit <= 0.0 && Fold(items).payment <= 0.0
    ensures Fold(items).credit >= 0.0 && Fold(items).investment >= 0.0
    decreases |items|
  {
    if |items| > 0 {
      FoldSigns(items[..|items| - 1]);
      var x := items[|items| - 1];
      BalanceValueSign(x);
    }
  }

  /** Taking one item out of a list takes its contribution out of the total. */
  lemma SumRemove(b: seq<Balance>, j: int, kind: BalanceType)
    requires 0 <= j < |b|
    ensures Sum(b, kind) == Sum(b[..j] + b[j + 1..], kind) + Contribution(b[j], kind)
  {
    assert b == (b[..j] + [b[j]]) + b[j + 1..];
    SumAppend(b[..j] + [b[j]], b[j + 1..], kind);
    SumAppend(b[..j], [b[j]], kind);
    SumAppend(b[..j], b[j + 1..], kind);
    assert [b[j]][..0] == [];
  }

  lemma MultisetRemove<T>(b: seq<T>, j: int)
    requires 0 <= j < |b|
    ensures multiset(b[..j] + b[j + 1..]) == multiset(b) - multiset{b[j]}
  {
    assert b == b[..j] + [b[j]] + b[j + 1..];
  }

  /** The per-kind totals do not depend on the order of the items. */
  lemma {:induction false} SumPermutation(a: seq<Balance>, b: seq<Balance>, kind: BalanceType)
    requires multiset(a) == multiset(b)
    ensures Sum(a, kind) == Sum(b, kind)
    decreases |a|
  {
    if |a| == 0 {
      assert |b| == |multiset(b)| == 0;
    } else {
      var x := a[|a| - 1];
      var a' := a[..|a| - 1];
      MultisetRemove(a, |a| - 1);
      assert a[..|a| - 1] + a[|a|..] == a';
      assert x in multiset(b);
      var j :| 0 <= j < |b| && b[j] == x;
      MultisetRemove(b, j);
      var b' := b[..j] + b[j + 1..];
      SumPermutation(a', b', kind);
      SumRemove(b, j, kind);
      assert Sum(a, kind) == Sum(a', kind) + Contribution(x, kind);
    }
  }

  /** `compute_active_metric` gives the same ledger for any ordering of the items. */
  lemma FoldPermutation(a: seq<Balance>, b: seq<Balance>)
    requires multiset(a) == multiset(b)
    ensures Fold(a) == Fold(b)
  {
    FoldIsSum(a);
    FoldIsSum(b);
    forall kind: BalanceType
      ensures Bucket(Fold(a), kind) == Bucket(Fold(b), kind)
    {
      SumPermutation(a, b, kind);
    }
    BucketsDetermine(Fold(a), Fold(b));
  }
}
