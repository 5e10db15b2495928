/**
 `PaymentStatus` of structs/payment.py: the debt and investment sizes, the
 monthly and yearly schedules (each an active queue, a pending queue and a
 running breakdown), construction with its sorting, `copy`, the per-cycle
 updates `update_curr_month` / `update_curr_year`, `update_status` and
 `make_yearly_payment`.
 */
module Statuses {
  import opened Balances
  import opened Breakdowns
  import opened Queues

  /** One spread's share of a status: the active items (sorted by expiry), the
      pending items (sorted by start), and the running breakdown of the cycle. */
  datatype Schedule = Schedule(active: seq<Balance>, pending: seq<Balance>, breakdown: Breakdown)

  datatype PaymentStatus = PaymentStatus(
    paymentSize: real,
    investmentSize: real,
    monthly: Schedule,
    yearly: Schedule,
    totalBreakdown: Breakdown)

  /** The order `__post_init__` establishes on both queues of a schedule. */
  predicate ScheduleSorted(s: Schedule) {
    Sorted(ByExpiry, s.active) && Sorted(ByStart, s.pending)
  }

  predicate WellFormed(st: PaymentStatus) {
    ScheduleSorted(st.monthly) && ScheduleSorted(st.yearly)
  }

  /** The schedule `__post_init__` builds from two lists: both sorted, the
      breakdown computed from the active items. */
  function NewSchedule(active: seq<Balance>, pending: seq<Balance>): (s: Schedule)
    ensures ScheduleSorted(s)
    ensures multiset(s.active) == multiset(active) && multiset(s.pending) == multiset(pending)
    ensures s.breakdown == Fold(active) && s.breakdown == Fold(s.active)
  {
    var sortedActive := Sort(ByExpiry, active);
    SortPermutes(ByExpiry, active);
    SortPermutes(ByStart, pending);
    FoldPermutation(sortedActive, active);
    Schedule(sortedActive, Sort(ByStart, pending), Fold(sortedActive))
  }

  /** Sorting keeps, for every key, the items with that key in their input
      order. */
  lemma NewScheduleStable(active: seq<Balance>, pending: seq<Balance>, k: Expiry)
    ensures WithKey(ByExpiry, NewSchedule(active, pending).active, k) == WithKey(ByExpiry, active, k)
    ensures WithKey(ByStart, NewSchedule(active, pending).pending, k) == WithKey(ByStart, pending, k)
  {
    SortStable(ByExpiry, active, k);
    SortStable(ByStart, pending, k);
  }

  /** The constructor `PaymentStatus(...)` with its `__post_init__`. */
  function NewStatus(paymentSize: real, investmentSize: real,
                     monthly: seq<Balance>, yearly: seq<Balance>,
                     pendingMonthly: seq<Balance>, pendingYearly: seq<Balance>): (st: PaymentStatus)
    ensures WellFormed(st)
    ensures st.paymentSize == paymentSize && st.investmentSize == investmentSize
    ensures multiset(st.monthly.active) == multiset(monthly) && multiset(st.yearly.active) == multiset(yearly)
    ensures multiset(st.monthly.pending) == multiset(pendingMonthly)
    ensures multiset(st.yearly.pending) == multiset(pendingYearly)
    ensures st.monthly.breakdown == Fold(monthly) && st.yearly.breakdown == Fold(yearly)
    ensures st.totalBreakdown == Zero
  {
    PaymentStatus(paymentSize, investmentSize,
                  NewSchedule(monthly, pendingMonthly), NewSchedule(yearly, pendingYearly), Zero)
  }

  /** `copy`: a new status built from copies of the four lists, so it is
      re-sorted, its breakdowns are recomputed and its total is zero. */
  function Copy(st: PaymentStatus): PaymentStatus {
    NewStatus(st.paymentSize, st.investmentSize, st.monthly.active, st.yearly.active,
              st.monthly.pending, st.yearly.pending)
  }

  /** A copy of a sorted status keeps every queue as it is and the sizes; its
      breakdowns are those of the active items and its total is zero. */
  lemma CopySorted(st: PaymentStatus)
    requires WellFormed(st)
    ensures Copy(st).paymentSize == st.paymentSize && Copy(st).investmentSize == st.investmentSize
    ensures Copy(st).monthly.active == st.monthly.active && Copy(st).monthly.pending == st.monthly.pending
    ensures Copy(st).yearly.active == st.yearly.active && Copy(st).yearly.pending == st.yearly.pending
    ensures Copy(st).monthly.breakdown == Fold(st.monthly.active)
    ensures Copy(st).yearly.breakdown == Fold(st.yearly.active)
    ensures Copy(st).totalBreakdown == Zero
  {
    SortSorted(ByExpiry, st.monthly.active);
    SortSorted(ByStart, st.monthly.pending);
    SortSorted(ByExpiry, st.yearly.active);
    SortSorted(ByStart, st.yearly.pending);
  }

  /** Copying twice is copying once. */
  lemma CopyIdempotent(st: PaymentStatus)
    ensures Copy(Copy(st)) == Copy(st)
  {
    CopySorted(Copy(st));
  }

  /** The body shared by `update_curr_month` and `update_curr_year`: the items
      expiring at `occ` leave the active queue, the items starting at `occ`
      leave the pending queue, and the breakdown gains the activated items
      and loses the removed ones. The activated items are not put on the
      active queue. */
  function Tick(s: Schedule, occ: int): (r: Schedule)
    ensures |r.active| <= |s.active| && r.active == s.active[..|r.active|]
    ensures |r.pending| <= |s.pending| && r.pending == s.pending[..|r.pending|]
    ensures forall i :: |r.active| <= i < |s.active| ==> s.active[i].expiry == At(occ)
    ensures forall i :: |r.pending| <= i < |s.pending| ==> s.pending[i].startMonth == occ
    ensures StopsBefore(ByExpiry, s.active, |r.active|, occ) && StopsBefore(ByStart, s.pending, |r.pending|, occ)
    ensures r.breakdown == Add(s.breakdown, Sub(Fold(s.pending[|r.pending|..]), Fold(s.active[|r.active|..])))
  {
    var removal := UpdateMetric(ByExpiry, s.active, occ);
    var activation := UpdateMetric(ByStart, s.pending, occ);
    Schedule(removal.rest, activation.rest, Add(s.breakdown, Sub(activation.breakdown, removal.breakdown)))
  }

  /** On a sorted schedule none of whose keys has passed `occ`, a tick removes
      exactly the active items expiring at `occ` and activates exactly the
      pending items starting at `occ`, and the schedule stays sorted. */
  lemma TickSorted(s: Schedule, occ: int)
    requires ScheduleSorted(s)
    requires forall i :: 0 <= i < |s.active| ==> AtLeast(s.active[i].expiry, At(occ))
    requires forall i :: 0 <= i < |s.pending| ==> s.pending[i].startMonth >= occ
    ensures ScheduleSorted(Tick(s, occ))
    ensures forall i :: 0 <= i < |s.active| ==> (i < |Tick(s, occ).active| <==> s.active[i].expiry != At(occ))
    ensures forall i :: 0 <= i < |s.pending| ==> (i < |Tick(s, occ).pending| <==> s.pending[i].startMonth != occ)
    ensures Tick(s, occ).breakdown
         == Add(s.breakdown, Sub(Fold(WithKey(ByStart, s.pending, At(occ))), Fold(WithKey(ByExpiry, s.active, At(occ)))))
  {
    assert forall i :: 0 <= i < |s.active| ==> AtLeast(Key(ByExpiry, s.active[i]), At(occ));
    assert forall i :: 0 <= i < |s.pending| ==> AtLeast(Key(ByStart, s.pending[i]), At(occ));
    PopsEveryDueItem(ByExpiry, s.active, occ);
    PopsEveryDueItem(ByStart, s.pending, occ);
    UpdateMetricKeepsSorted(ByExpiry, s.active, occ);
    UpdateMetricKeepsSorted(ByStart, s.pending, occ);
  }

  /** A queue whose tail key has already passed is blocked: the tick pops
      nothing from it, even items further up that fall due at `occ`. This
      is what happens to a yearly item written back with start month 0,
      since the yearly ticks start at year 1. */
  lemma OverdueTailBlocks(s: Schedule, occ: int)
    ensures |s.pending| > 0 && s.pending[|s.pending| - 1].startMonth < occ ==> Tick(s, occ).pending == s.pending
    ensures |s.active| > 0 && AtLeast(At(occ - 1), s.active[|s.active| - 1].expiry) ==> Tick(s, occ).active == s.active
  {
  }

  /** If the breakdown is the fold of the active items plus some `extra`, it
      stays so after a tick, up to what `-` does to the credit bucket: the
      activated items join `extra`, and so does the credit of the removed
      items less their debit, which `-` leaves behind. */
  lemma TickTracksActive(s: Schedule, occ: int, extra: Breakdown)
    requires s.breakdown == Add(Fold(s.active), extra)
    ensures var r := Tick(s, occ);
      var activated, removed := Fold(s.pending[|r.pending|..]), Fold(s.active[|r.active|..]);
      r.breakdown == Add(Fold(r.active), Add(extra, Add(activated, Breakdown(removed.credit - removed.debit, 0.0, 0.0, 0.0))))
  {
    var r := Tick(s, occ);
    var n := |r.active|;
    SplitAt(s.active, n);
    FoldAppend(s.active[..n], s.active[n..]);
  }

  /** The invariant behind the debt's growth: every item is positive and the
      payment bucket of the running breakdown is at most that of the active
      items. */
  predicate Owing(s: Schedule) {
    Positive(s.active) && Positive(s.pending) && s.breakdown.payment <= Fold(s.active).payment
  }

  /** A tick keeps `Owing`, and under it the payment bucket is never positive. */
  lemma TickKeepsOwing(s: Schedule, occ: int)
    requires Owing(s)
    ensures s.breakdown.payment <= 0.0
    ensures Owing(Tick(s, occ)) && Tick(s, occ).breakdown.payment <= 0.0
  {
    FoldSigns(s.active);
    var r := Tick(s, occ);
    var n, m := |r.active|, |r.pending|;
    SplitAt(s.active, n);
    SplitAt(s.pending, m);
    FoldAppend(s.active[..n], s.active[n..]);
    assert Positive(s.active[n..]) && Positive(s.pending[m..]);
    FoldSigns(s.active[n..]);
    FoldSigns(s.pending[m..]);
    FoldSigns(r.active);
  }

  lemma SplitAt(s: seq<Balance>, n: int)
    requires 0 <= n <= |s|
    ensures s == s[..n] + s[n..]
  {
  }

  /** `update_curr_month`: a tick of the monthly schedule; nothing else changes. */
  function UpdateCurrMonth(st: PaymentStatus, newMonth: int): (r: PaymentStatus)
    ensures r.monthly == Tick(st.monthly, newMonth)
    ensures r.yearly == st.yearly && r.totalBreakdown == st.totalBreakdown
    ensures r.paymentSize == st.paymentSize && r.investmentSize == st.investmentSize
  {
    st.(monthly := Tick(st.monthly, newMonth))
  }

  /** `update_curr_year`: a tick of the yearly schedule; nothing else changes. */
  function UpdateCurrYear(st: PaymentStatus, newYear: int): (r: PaymentStatus)
    ensures r.yearly == Tick(st.yearly, newYear)
    ensures r.monthly == st.monthly && r.totalBreakdown == st.totalBreakdown
    ensures r.paymentSize == st.paymentSize && r.investmentSize == st.investmentSize
  {
    st.(yearly := Tick(st.yearly, newYear))
  }

  /** `update_status`: the payment bucket is taken off the debt, the
      investment bucket added to the investment, and the ledger recorded. */
  function UpdateStatus(st: PaymentStatus, total: Breakdown): (r: PaymentStatus)
    ensures r.paymentSize - st.paymentSize == -total.payment
    ensures r.investmentSize - st.investmentSize == total.investment
    ensures r.totalBreakdown == total
    ensures r.monthly == st.monthly && r.yearly == st.yearly
  {
    st.(paymentSize := st.paymentSize - total.payment,
        investmentSize := st.investmentSize + total.investment,
        totalBreakdown := total)
  }

  /** Since payment items contribute negatively, recording the ledger of
      positive items never shrinks the debt and never shrinks the investment. */
  lemma UpdateStatusWithItems(st: PaymentStatus, items: seq<Balance>)
    requires Positive(items)
    ensures UpdateStatus(st, Fold(items)).paymentSize >= st.paymentSize
    ensures UpdateStatus(st, Fold(items)).investmentSize >= st.investmentSize
  {
    FoldSigns(items);
  }

  /** `make_yearly_payment`: the given fraction of the investment is taken off. */
  function MakeYearlyPayment(st: PaymentStatus, percentage: real): (r: PaymentStatus)
    ensures r.investmentSize == st.investmentSize * (1.0 - percentage)
    ensures 0.0 <= percentage <= 1.0 && st.investmentSize >= 0.0 ==> 0.0 <= r.investmentSize <= st.investmentSize
    ensures r == st.(investmentSize := r.investmentSize)
  {
    st.(investmentSize := st.investmentSize - st.investmentSize * percentage)
  }
}
