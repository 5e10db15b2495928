/**
 The month-by-month simulation loop: `get_payment_status_list` of
 simulate.py and `simulate_payment` of main.py. Both build a `PaymentStatus`
 from the item store, snapshot it, and repeat the month step while the debt
 is positive; they differ only in the test that ends the loop early.
 */
module Simulation {
  import opened Wrappers
  import opened Balances
  import opened Breakdowns
  import opened Statuses
  import opened Handler

  /** A calendar month; `datetime.now().month` is the starting one. */
  type Month = m: int | 1 <= m <= 12 witness 1

  /** One month later on the calendar (`relativedelta(months=1)`). */
  function NextMonth(m: Month): Month {
    if m == 12 then 1 else m + 1
  }

  /** The calendar month `k` steps of `NextMonth` after `m`. */
  function MonthsLater(m: Month, k: nat): Month
    decreases k
  {
    if k == 0 then m else NextMonth(MonthsLater(m, k - 1))
  }

  /** Stepping the calendar is counting modulo twelve: `k` months after `m`
      is month `(m - 1 + k) mod 12 + 1`. */
  lemma {:induction false} MonthsLaterIsModular(m: Month, k: nat)
    ensures MonthsLater(m, k) == (m - 1 + k) % 12 + 1
    decreases k
  {
    if k > 0 {
      var before := k - 1;
      MonthsLaterIsModular(m, before);
      var j: nat := m - 1 + before;
      ModTwelveStep(j);
      assert MonthsLater(m, k) == NextMonth(j % 12 + 1);
    }
  }

  /** One more step wraps the remainder modulo twelve from 11 back to 0. */
  lemma ModTwelveStep(j: nat)
    ensures (j + 1) % 12 == if j % 12 == 11 then 0 else j % 12 + 1
  {
    var q, r := j / 12, j % 12;
    assert j + 1 == 12 * q + r + 1;
    if r == 11 {
      assert j + 1 == 12 * (q + 1);
    }
  }

  /** December comes round exactly once in every twelve months, so the yearly
      step runs once a year: month `k` after `m` is December exactly when
      `m + k` is a multiple of twelve, and twelve months later the calendar
      is back where it was. */
  lemma DecemberOncePerYear(m: Month, k: nat)
    ensures MonthsLater(m, k) == 12 <==> (m + k) % 12 == 0
    ensures MonthsLater(m, k + 12) == MonthsLater(m, k)
  {
    var j: nat := m - 1 + k;
    MonthsLaterIsModular(m, k);
    MonthsLaterIsModular(m, k + 12);
    ModTwelveStep(j);
    ModTwelvePeriod(j);
  }

  lemma ModTwelvePeriod(j: nat)
    ensures (j + 12) % 12 == j % 12
  {
    var q := j / 12;
    assert j + 12 == 12 * (q + 1) + j % 12;
  }

  /** The rates read from the environment and the keyword arguments. */
  datatype Params = Params(
    paymentInterestRate: real,
    investmentInterestRate: real,
    profitTax: real,
    investmentYearlyPercentage: real)

  /** The loop's variables: the live status, the cycle counters and the
      calendar month. */
  datatype LoopState = LoopState(status: PaymentStatus, monthIt: int, yearIt: int, month: Month)

  /** The ledger of the month before tax: the monthly breakdown after the
      monthly tick, plus the yearly breakdown (before the yearly tick) in
      December. */
  function MonthLedger(ticked: PaymentStatus, month: Month): Breakdown {
    if month == 12 then Add(ticked.monthly.breakdown, ticked.yearly.breakdown)
    else ticked.monthly.breakdown
  }

  /** The tax on the investment's earnings plus the month's credit, booked as
      debit; the earnings join the investment bucket. */
  function Taxed(ledger: Breakdown, earnings: real, profitTax: real): (r: Breakdown)
    ensures r.debit == ledger.debit + (earnings + ledger.credit) * profitTax
    ensures r.investment == ledger.investment + earnings
    ensures r.credit == ledger.credit && r.payment == ledger.payment
  {
    ledger.(debit := ledger.debit + (earnings + ledger.credit) * profitTax,
            investment := ledger.investment + earnings)
  }

  /** One pass of the loop body up to `update_status`: compound the debt,
      take the investment's earnings, tick the monthly schedule, in December
      add the yearly breakdown, skim the investment and tick the yearly
      schedule, tax the earnings and the credit, and record the ledger.
      Compounding touches only the debt, which nothing before `update_status`
      reads, so it is applied after the ticks. */
  function Step(p: Params, ls: LoopState): (r: LoopState)
    ensures r.monthIt == ls.monthIt && r.month == ls.month
    ensures r.yearIt == if ls.month == 12 then ls.yearIt + 1 else ls.yearIt
    ensures r.status.monthly == Tick(ls.status.monthly, ls.monthIt)
    ensures r.status.yearly == if ls.month == 12 then Tick(ls.status.yearly, ls.yearIt + 1) else ls.status.yearly
    ensures r.status.totalBreakdown
         == Taxed(MonthLedger(UpdateCurrMonth(ls.status, ls.monthIt), ls.month),
                  ls.status.investmentSize * p.investmentInterestRate, p.profitTax)
    ensures r.status.paymentSize
         == ls.status.paymentSize + ls.status.paymentSize * p.paymentInterestRate - r.status.totalBreakdown.payment
  {
    var st := ls.status;
    var earnings := st.investmentSize * p.investmentInterestRate;
    var ticked := UpdateCurrMonth(st, ls.monthIt);
    var taxed := Taxed(MonthLedger(ticked, ls.month), earnings, p.profitTax);
    var yearIt := if ls.month == 12 then ls.yearIt + 1 else ls.yearIt;
    var paid := if ls.month == 12
                then UpdateCurrYear(MakeYearlyPayment(ticked, p.investmentYearlyPercentage), yearIt)
                else ticked;
    var compounded := paid.(paymentSize := st.paymentSize + st.paymentSize * p.paymentInterestRate);
    LoopState(UpdateStatus(compounded, taxed), ls.monthIt, yearIt, ls.month)
  }

  /** The investment after a month step: skimmed by the yearly percentage in
      December, then credited with the ledger's investment bucket. */
  lemma StepInvestment(p: Params, ls: LoopState)
    ensures Step(p, ls).status.investmentSize
         == (if ls.month == 12 then ls.status.investmentSize - ls.status.investmentSize * p.investmentYearlyPercentage
             else ls.status.investmentSize)
          + Step(p, ls).status.totalBreakdown.investment
  {
  }

  /** The month's payment bucket is the monthly breakdown after its tick, plus
      in December the yearly breakdown before its tick. */
  lemma StepPayment(p: Params, ls: LoopState)
    ensures Step(p, ls).status.totalBreakdown.payment
         == Tick(ls.status.monthly, ls.monthIt).breakdown.payment
          + (if ls.month == 12 then ls.status.yearly.breakdown.payment else 0.0)
  {
  }

  /** Both schedules of a status satisfy `Owing`. */
  predicate StatusOwing(st: PaymentStatus) {
    Owing(st.monthly) && Owing(st.yearly)
  }

  /** A month step keeps `Owing` on both schedules. */
  lemma StepKeepsOwing(p: Params, ls: LoopState)
    requires StatusOwing(ls.status)
    ensures StatusOwing(Step(p, ls).status)
  {
    TickKeepsOwing(ls.status.monthly, ls.monthIt);
    TickKeepsOwing(ls.status.yearly, ls.yearIt + 1);
  }

  /** Under `Owing` the month's payment bucket is never positive. */
  lemma StepPaymentNonPositive(p: Params, ls: LoopState)
    requires StatusOwing(ls.status)
    ensures Step(p, ls).status.totalBreakdown.payment <= 0.0
  {
    TickKeepsOwing(ls.status.monthly, ls.monthIt);
    TickKeepsOwing(ls.status.yearly, ls.yearIt + 1);
    StepPayment(p, ls);
  }

  /** With positive items and a non-negative interest rate a month step never
      shrinks a positive debt: payment items enter the ledger negatively and
      `update_status` subtracts the ledger's payment bucket. */
  lemma StepNeverShrinksDebt(p: Params, ls: LoopState)
    requires StatusOwing(ls.status)
    requires p.paymentInterestRate >= 0.0 && ls.status.paymentSize > 0.0
    ensures Step(p, ls).status.paymentSize >= ls.status.paymentSize
  {
    StepPaymentNonPositive(p, ls);
    DebtGrows(p, ls);
  }

  /** A month step whose payment bucket is not positive leaves a positive debt
      at least as large, the interest rate being non-negative. */
  lemma DebtGrows(p: Params, ls: LoopState)
    requires Step(p, ls).status.totalBreakdown.payment <= 0.0
    requires p.paymentInterestRate >= 0.0 && ls.status.paymentSize > 0.0
    ensures Step(p, ls).status.paymentSize >= ls.status.paymentSize
  {
    NonNegativeProduct(ls.status.paymentSize, p.paymentInterestRate);
  }

  lemma NonNegativeProduct(a: real, b: real)
    requires a >= 0.0 && b >= 0.0
    ensures a * b >= 0.0
  {
  }

  /** The next calendar month and cycle index, taken when the loop goes on. */
  function Advance(ls: LoopState): LoopState {
    ls.(monthIt := ls.monthIt + 1, month := NextMonth(ls.month))
  }

  /** The state the loop is in at the start of pass `k`: `k` times the loop
      body followed by the advance of the calendar. */
  function Trace(step: LoopState -> LoopState, ls: LoopState, k: nat): LoopState
    decreases k
  {
    if k == 0 then ls else Trace(step, Advance(step(ls)), k - 1)
  }

  /** A loop body that leaves the cycle index and the calendar month alone,
      as `Step` does. */
  ghost predicate KeepsCalendar(step: LoopState -> LoopState) {
    forall x :: step(x).monthIt == x.monthIt && step(x).month == x.month
  }

  /** Pass `k` runs at cycle index `k` after the start and in the `k`-th
      calendar month after the starting one. */
  lemma {:induction false} TraceCalendar(step: LoopState -> LoopState, ls: LoopState, k: nat)
    requires KeepsCalendar(step)
    ensures Trace(step, ls, k).monthIt == ls.monthIt + k
    ensures Trace(step, ls, k).month == (ls.month - 1 + k) % 12 + 1
    decreases k
  {
    if k > 0 {
      var next, rest := Advance(step(ls)), k - 1;
      TraceCalendar(step, next, rest);
      if ls.month == 12 {
        ModTwelvePeriod(rest);
      }
    }
  }

  /** The month step with the rates fixed: the loop body the two entry points
      run. */
  function MonthStep(p: Params): LoopState -> LoopState {
    ls => Step(p, ls)
  }

  /** `payment_status.copy()`, the snapshot the loop appends. */
  const Snapshot: PaymentStatus -> PaymentStatus := st => Copy(st)

  /** The early-exit test after a snapshot: simulate.py compares the previous
      snapshot with the live debt; main.py compares the snapshot just taken
      with it. */
  datatype StopTest = AgainstPrevious | AgainstSelf

  /** How the loop ended: its condition failed, or the early exit fired. */
  datatype Exit = LoopEnded | Stopped

  datatype RunResult =
    | Finished(exit: Exit, snapshots: seq<PaymentStatus>)
    | OutOfFuel(snapshots: seq<PaymentStatus>)

  /** Whether the early exit fires once `sims` ends with the new snapshot. */
  predicate Stops(test: StopTest, sims: seq<PaymentStatus>, debt: real)
    requires |sims| >= 2
  {
    match test
    case AgainstPrevious => sims[|sims| - 2].paymentSize <= debt
    case AgainstSelf => sims[|sims| - 1].paymentSize >= debt
  }

  /** The `while payment_size > 0` loop, at most `fuel` passes, each pass
      running `step` (the loop body up to `update_status`), appending a copy
      of the live status and testing for the early exit. */
  function Run(step: LoopState -> LoopState, snap: PaymentStatus -> PaymentStatus, test: StopTest, ls: LoopState,
               sims: seq<PaymentStatus>, fuel: nat): (r: RunResult)
    requires |sims| > 0
    ensures |sims| <= |r.snapshots| && forall i :: 0 <= i < |sims| ==> r.snapshots[i] == sims[i]
    ensures ls.status.paymentSize <= 0.0 ==> r.Finished? && r.exit == LoopEnded && |r.snapshots| == |sims|
    decreases fuel
  {
    if ls.status.paymentSize <= 0.0 then Finished(LoopEnded, sims)
    else if fuel == 0 then OutOfFuel(sims)
    else
      var next := step(ls);
      var sims' := sims + [snap(next.status)];
      if Stops(test, sims', next.status.paymentSize) then Finished(Stopped, sims')
      else
        Run(step, snap, test, Advance(next), sims', fuel - 1)
  }

  /** A snapshot function that records the debt it is given. */
  ghost predicate KeepsDebt(snap: PaymentStatus -> PaymentStatus) {
    forall x :: snap(x).paymentSize == x.paymentSize
  }

  /** What `copy` hands back: sorted queues and a zero total. */
  predicate Clean(st: PaymentStatus) {
    WellFormed(st) && st.totalBreakdown == Zero
  }

  /** A snapshot function whose results are clean. */
  ghost predicate CleanSnapshots(snap: PaymentStatus -> PaymentStatus) {
    forall x :: Clean(snap(x))
  }

  lemma SnapshotIsCopy()
    ensures KeepsDebt(Snapshot) && CleanSnapshots(Snapshot)
  {
    SnapshotKeepsDebt();
  }

  /** A `copy` records the debt it was taken from. This half of
      `SnapshotIsCopy` is kept on its own for the callers that need only the
      debt: leaving `CleanSnapshots` out of their context keeps their proofs
      small. */
  lemma SnapshotKeepsDebt()
    ensures KeepsDebt(Snapshot)
  {
  }

  /** A run from a snapshot that records the live debt: every snapshot the
      loop went on from had a positive debt, and when the loop ends by its
      condition the last debt is not positive. */
  lemma {:induction false} RunShape(step: LoopState -> LoopState, snap: PaymentStatus -> PaymentStatus,
                                    test: StopTest, ls: LoopState, sims: seq<PaymentStatus>, fuel: nat)
    requires KeepsDebt(snap)
    requires |sims| > 0 && sims[|sims| - 1].paymentSize == ls.status.paymentSize
    ensures forall i :: |sims| - 1 <= i < |Run(step, snap, test, ls, sims, fuel).snapshots| - 1 ==>
      Run(step, snap, test, ls, sims, fuel).snapshots[i].paymentSize > 0.0
    ensures var r := Run(step, snap, test, ls, sims, fuel);
      r.Finished? && r.exit == LoopEnded ==> r.snapshots[|r.snapshots| - 1].paymentSize <= 0.0
    decreases fuel
  {
    if ls.status.paymentSize > 0.0 && fuel > 0 {
      var next, rest := step(ls), fuel - 1;
      var sims' := sims + [snap(next.status)];
      assert sims'[|sims|].paymentSize == next.status.paymentSize;
      if !Stops(test, sims', next.status.paymentSize) {
        RunShape(step, snap, test, Advance(next), sims', rest);
        var s := Run(step, snap, test, Advance(next), sims', rest).snapshots;
        assert s[|sims| - 1] == sims'[|sims| - 1];
      }
    }
  }

  /** Under simulate.py's test the debts a run records strictly fall up to
      the last one. */
  lemma {:induction false} RunFalls(step: LoopState -> LoopState, snap: PaymentStatus -> PaymentStatus,
                                    ls: LoopState, sims: seq<PaymentStatus>, fuel: nat)
    requires KeepsDebt(snap)
    requires |sims| > 0 && sims[|sims| - 1].paymentSize == ls.status.paymentSize
    ensures forall i, j :: |sims| - 1 <= i < j < |Run(step, snap, AgainstPrevious, ls, sims, fuel).snapshots| - 1 ==>
      Run(step, snap, AgainstPrevious, ls, sims, fuel).snapshots[j].paymentSize
        < Run(step, snap, AgainstPrevious, ls, sims, fuel).snapshots[i].paymentSize
    decreases fuel
  {
    if ls.status.paymentSize > 0.0 && fuel > 0 {
      var next, rest := step(ls), fuel - 1;
      var sims' := sims + [snap(next.status)];
      assert sims'[|sims|].paymentSize == next.status.paymentSize;
      if !Stops(AgainstPrevious, sims', next.status.paymentSize) {
        RunFalls(step, snap, Advance(next), sims', rest);
        var s := Run(step, snap, AgainstPrevious, Advance(next), sims', rest).snapshots;
        assert s[|sims| - 1] == sims'[|sims| - 1];
        assert s[|sims|] == sims'[|sims|];
      }
    }
  }

  /** Under simulate.py's test the early exit fires on a debt at least the
      previous one. */
  lemma {:induction false} RunStopsOnRise(step: LoopState -> LoopState, snap: PaymentStatus -> PaymentStatus,
                                          ls: LoopState, sims: seq<PaymentStatus>, fuel: nat)
    requires KeepsDebt(snap) && |sims| > 0
    ensures var r := Run(step, snap, AgainstPrevious, ls, sims, fuel);
      r.Finished? && r.exit == Stopped ==>
        |r.snapshots| >= 2
        && r.snapshots[|r.snapshots| - 1].paymentSize >= r.snapshots[|r.snapshots| - 2].paymentSize
    decreases fuel
  {
    if ls.status.paymentSize > 0.0 && fuel > 0 {
      var next, rest := step(ls), fuel - 1;
      var sims' := sims + [snap(next.status)];
      assert sims'[|sims|].paymentSize == next.status.paymentSize;
      if !Stops(AgainstPrevious, sims', next.status.paymentSize) {
        RunStopsOnRise(step, snap, Advance(next), sims', rest);
      }
    }
  }

  /** Every snapshot the loop appends is clean. */
  lemma {:induction false} RunSnapshots(step: LoopState -> LoopState, snap: PaymentStatus -> PaymentStatus,
                                        test: StopTest, ls: LoopState, sims: seq<PaymentStatus>, fuel: nat)
    requires CleanSnapshots(snap) && |sims| > 0
    ensures forall i :: |sims| <= i < |Run(step, snap, test, ls, sims, fuel).snapshots| ==>
      Clean(Run(step, snap, test, ls, sims, fuel).snapshots[i])
    decreases fuel
  {
    if ls.status.paymentSize > 0.0 && fuel > 0 {
      var next, rest := step(ls), fuel - 1;
      var sims' := sims + [snap(next.status)];
      assert Clean(sims'[|sims|]);
      if !Stops(test, sims', next.status.paymentSize) {
        RunSnapshots(step, snap, test, Advance(next), sims', rest);
        var s := Run(step, snap, test, Advance(next), sims', rest).snapshots;
        assert s[|sims|] == sims'[|sims|];
      }
    }
  }

  /** Under main.py's test the loop always exits after its first pass: the
      snapshot just taken records the live debt. */
  lemma AgainstSelfStopsAtOnce(step: LoopState -> LoopState, snap: PaymentStatus -> PaymentStatus, ls: LoopState, sims: seq<PaymentStatus>, fuel: nat)
    requires KeepsDebt(snap)
    requires |sims| > 0 && ls.status.paymentSize > 0.0 && fuel > 0
    ensures Run(step, snap, AgainstSelf, ls, sims, fuel) == Finished(Stopped, sims + [snap(step(ls).status)])
  {
  }

  /** A pass from a positive debt appends the snapshot of the stepped status
      after those already taken. */
  lemma FirstPass(step: LoopState -> LoopState, snap: PaymentStatus -> PaymentStatus, test: StopTest,
                  ls: LoopState, sims: seq<PaymentStatus>, fuel: nat)
    requires |sims| > 0 && ls.status.paymentSize > 0.0 && fuel > 0
    ensures |Run(step, snap, test, ls, sims, fuel).snapshots| > |sims|
    ensures Run(step, snap, test, ls, sims, fuel).snapshots[|sims|] == snap(step(ls).status)
  {
    var sims' := sims + [snap(step(ls).status)];
    assert sims'[|sims|] == snap(step(ls).status);
  }

  /** Snapshot `k` after `sims` is the copy taken in pass `k`, from the state
      `Trace` gives for that pass. */
  lemma {:induction false} RunPass(step: LoopState -> LoopState, snap: PaymentStatus -> PaymentStatus, test: StopTest,
                                   ls: LoopState, sims: seq<PaymentStatus>, fuel: nat, k: nat)
    requires |sims| > 0 && |sims| + k < |Run(step, snap, test, ls, sims, fuel).snapshots|
    ensures Run(step, snap, test, ls, sims, fuel).snapshots[|sims| + k] == snap(step(Trace(step, ls, k)).status)
    decreases k
  {
    var next := step(ls);
    var sims' := sims + [snap(next.status)];
    assert ls.status.paymentSize > 0.0 && fuel > 0;
    if k == 0 {
      assert sims'[|sims|] == snap(next.status);
    } else {
      assert !Stops(test, sims', next.status.paymentSize);
      var rest, fewer := k - 1, fuel - 1;
      RunPass(step, snap, test, Advance(next), sims', fewer, rest);
    }
  }

  /** Both early-exit tests take the same first pass: the list main.py's
      test stops with is the prefix of the one simulate.py's test builds. */
  lemma TestsAgreeOnFirstPass(step: LoopState -> LoopState, snap: PaymentStatus -> PaymentStatus,
                              ls: LoopState, sims: seq<PaymentStatus>, fuel: nat)
    requires KeepsDebt(snap)
    requires |sims| > 0 && ls.status.paymentSize > 0.0 && fuel > 0
    ensures |Run(step, snap, AgainstPrevious, ls, sims, fuel).snapshots| >= |sims| + 1
    ensures Run(step, snap, AgainstSelf, ls, sims, 1).snapshots
         == Run(step, snap, AgainstPrevious, ls, sims, fuel).snapshots[..|sims| + 1]
  {
    AgainstSelfStopsAtOnce(step, snap, ls, sims, 1);
    FirstPass(step, snap, AgainstPrevious, ls, sims, fuel);
    var s := Run(step, snap, AgainstPrevious, ls, sims, fuel).snapshots;
    assert s[..|sims| + 1] == sims + [snap(step(ls).status)];
  }

  /** Under simulate.py's test, a first pass that does not shrink the debt
      ends the loop. */
  lemma NoProgressStops(step: LoopState -> LoopState, snap: PaymentStatus -> PaymentStatus, ls: LoopState, sims: seq<PaymentStatus>, fuel: nat)
    requires |sims| > 0 && sims[|sims| - 1].paymentSize == ls.status.paymentSize
    requires ls.status.paymentSize > 0.0 && fuel > 0
    requires step(ls).status.paymentSize >= ls.status.paymentSize
    ensures Run(step, snap, AgainstPrevious, ls, sims, fuel) == Finished(Stopped, sims + [snap(step(ls).status)])
  {
  }

  /** `PaymentStatus(...)` over the four selections of the store, after
      `initial_payment` is taken off both sizes. */
  function InitialStatus(rows: seq<Record>, paymentSize: real, investmentSize: real, initialPayment: real): (st: PaymentStatus)
    ensures WellFormed(st) && st.totalBreakdown == Zero
    ensures st.paymentSize == paymentSize - initialPayment && st.investmentSize == investmentSize - initialPayment
    ensures multiset(st.monthly.active) == multiset(Items(rows, ActiveMonthly))
    ensures multiset(st.yearly.active) == multiset(Items(rows, ActiveYearly))
    ensures multiset(st.monthly.pending) == multiset(Items(rows, PendingMonthly))
    ensures multiset(st.yearly.pending) == multiset(Items(rows, PendingYearly))
  {
    NewStatus(paymentSize - initialPayment, investmentSize - initialPayment,
              Items(rows, ActiveMonthly), Items(rows, ActiveYearly),
              Items(rows, PendingMonthly), Items(rows, PendingYearly))
  }

  /** A run that finished within `fuel` passes finishes the same way with
      one pass more: the fuel bound only cuts off runs that have not ended. */
  lemma {:induction false} RunFuelMonotone(step: LoopState -> LoopState, snap: PaymentStatus -> PaymentStatus,
                                           test: StopTest, ls: LoopState, sims: seq<PaymentStatus>, fuel: nat)
    requires |sims| > 0 && Run(step, snap, test, ls, sims, fuel).Finished?
    ensures Run(step, snap, test, ls, sims, fuel + 1) == Run(step, snap, test, ls, sims, fuel)
    decreases fuel
  {
    if ls.status.paymentSize > 0.0 {
      var next := step(ls);
      var sims' := sims + [snap(next.status)];
      if !Stops(test, sims', next.status.paymentSize) {
        var rest := fuel - 1;
        RunFuelMonotone(step, snap, test, Advance(next), sims', rest);
      }
    }
  }

  /** Any larger fuel gives the same finished run. */
  lemma {:induction false} RunFuelIrrelevant(step: LoopState -> LoopState, snap: PaymentStatus -> PaymentStatus,
                                             test: StopTest, ls: LoopState, sims: seq<PaymentStatus>,
                                             fuel: nat, more: nat)
    requires |sims| > 0 && Run(step, snap, test, ls, sims, fuel).Finished?
    ensures Run(step, snap, test, ls, sims, fuel + more) == Run(step, snap, test, ls, sims, fuel)
    decreases more
  {
    if more > 0 {
      var less := more - 1;
      RunFuelIrrelevant(step, snap, test, ls, sims, fuel, less);
      RunFuelMonotone(step, snap, test, ls, sims, fuel + less);
    }
  }

  /** The loop's starting point: the initial status at cycle 0 of year 0 in
      the current calendar month. */
  function Start(rows: seq<Record>, paymentSize: real, investmentSize: real,
                 initialPayment: real, startMonth: Month): LoopState {
    LoopState(InitialStatus(rows, paymentSize, investmentSize, initialPayment), 0, 0, startMonth)
  }

  /** `get_payment_status_list`: the initial snapshot, then one snapshot per
      month until the debt is paid or stops falling. */
  function GetPaymentStatusList(p: Params, rows: seq<Record>, paymentSize: real, investmentSize: real,
                                initialPayment: real, startMonth: Month, fuel: nat): (r: RunResult)
    ensures |r.snapshots| >= 1 && r.snapshots[0] == Copy(InitialStatus(rows, paymentSize, investmentSize, initialPayment))
    ensures r.snapshots[0].paymentSize == paymentSize - initialPayment
    ensures paymentSize - initialPayment <= 0.0 ==> r.Finished? && |r.snapshots| == 1
    ensures paymentSize - initialPayment > 0.0 && fuel > 0 ==> |r.snapshots| >= 2
  {
    var ls := Start(rows, paymentSize, investmentSize, initialPayment, startMonth);
    CopySorted(ls.status);
    Run(MonthStep(p), Snapshot, AgainstPrevious, ls, [Copy(ls.status)], fuel)
  }

  /** Once `get_payment_status_list` has returned within some fuel, more fuel
      returns the same list: the fuel is not part of what the source computes. */
  lemma GetPaymentStatusListFuel(p: Params, rows: seq<Record>, paymentSize: real, investmentSize: real,
                                 initialPayment: real, startMonth: Month, fuel: nat, more: nat)
    requires GetPaymentStatusList(p, rows, paymentSize, investmentSize, initialPayment, startMonth, fuel).Finished?
    ensures GetPaymentStatusList(p, rows, paymentSize, investmentSize, initialPayment, startMonth, fuel + more)
         == GetPaymentStatusList(p, rows, paymentSize, investmentSize, initialPayment, startMonth, fuel)
  {
    var ls := Start(rows, paymentSize, investmentSize, initialPayment, startMonth);
    RunFuelIrrelevant(MonthStep(p), Snapshot, AgainstPrevious, ls, [Copy(ls.status)], fuel, more);
  }

  /** With a loop body that keeps the calendar, snapshot `k` after `sims` is
      taken after the body ran at cycle index `k` past the start, in the
      `k`-th calendar month after the starting one, which is December
      exactly when the starting month plus `k` is a multiple of twelve. */
  lemma RunCalendar(step: LoopState -> LoopState, snap: PaymentStatus -> PaymentStatus, test: StopTest,
                    ls: LoopState, sims: seq<PaymentStatus>, fuel: nat, k: nat)
    requires KeepsCalendar(step)
    requires |sims| > 0 && |sims| + k < |Run(step, snap, test, ls, sims, fuel).snapshots|
    ensures Run(step, snap, test, ls, sims, fuel).snapshots[|sims| + k] == snap(step(Trace(step, ls, k)).status)
    ensures Trace(step, ls, k).monthIt == ls.monthIt + k
    ensures Trace(step, ls, k).month == MonthsLater(ls.month, k)
    ensures Trace(step, ls, k).month == 12 <==> (ls.month + k) % 12 == 0
  {
    RunPass(step, snap, test, ls, sims, fuel, k);
    TraceCalendar(step, ls, k);
    MonthsLaterIsModular(ls.month, k);
    DecemberOncePerYear(ls.month, k);
  }

  /** In the loop of `get_payment_status_list`, snapshot `k` after the first
      is the copy of the month step run at cycle index `k` past the start and
      in the `k`-th calendar month after the starting one; so the
      December-only yearly step runs in pass `k` exactly when the starting
      month plus `k` is a multiple of twelve, once in every twelve passes,
      and the year index the yearly tick uses counts the Decembers passed. */
  lemma PassCalendar(p: Params, ls: LoopState, sims: seq<PaymentStatus>, fuel: nat, k: nat)
    requires |sims| > 0 && |sims| + k < |Run(MonthStep(p), Snapshot, AgainstPrevious, ls, sims, fuel).snapshots|
    ensures var pass := Trace(MonthStep(p), ls, k);
      && Run(MonthStep(p), Snapshot, AgainstPrevious, ls, sims, fuel).snapshots[|sims| + k] == Copy(Step(p, pass).status)
      && pass.monthIt == ls.monthIt + k
      && pass.month == MonthsLater(ls.month, k)
      && (pass.month == 12 <==> (ls.month + k) % 12 == 0)
      && pass.yearIt == ls.yearIt + (ls.month - 1 + k) / 12
  {
    MonthStepCounts(p);
    TraceYear(MonthStep(p), ls, k);
    MonthStepKeepsCalendar(p);
    RunCalendar(MonthStep(p), Snapshot, AgainstPrevious, ls, sims, fuel, k);
  }

  /** A loop body that keeps the calendar and counts Decembers: the year
      index goes up by one exactly when the pass runs in December, as `Step`
      does before the yearly tick. */
  ghost predicate CountsDecembers(step: LoopState -> LoopState) {
    forall x :: && step(x).monthIt == x.monthIt && step(x).month == x.month
                && step(x).yearIt == if x.month == 12 then x.yearIt + 1 else x.yearIt
  }

  /** The year index at pass `k` counts the Decembers passed since the start:
      it is the number of times the calendar has wrapped from 12 to 1. */
  lemma {:induction false} TraceYear(step: LoopState -> LoopState, ls: LoopState, k: nat)
    requires CountsDecembers(step)
    ensures Trace(step, ls, k).yearIt == ls.yearIt + (ls.month - 1 + k) / 12
    decreases k
  {
    if k > 0 {
      var next, rest := Advance(step(ls)), k - 1;
      TraceYear(step, next, rest);
      assert Trace(step, ls, k) == Trace(step, next, rest);
      if ls.month == 12 {
        assert next.month == 1 && next.yearIt == ls.yearIt + 1;
        YearStep(rest);
        assert ls.month - 1 + k == rest + 12;
      } else {
        assert next.month == ls.month + 1 && next.yearIt == ls.yearIt;
        assert ls.month - 1 + k == next.month - 1 + rest;
      }
    }
  }

  /** Twelve more months are one more year. */
  lemma YearStep(j: nat)
    ensures (j + 12) / 12 == j / 12 + 1
  {
    var q, r := j / 12, j % 12;
    assert j + 12 == 12 * (q + 1) + r;
  }

  /** The month step counts Decembers. */
  lemma MonthStepCounts(p: Params)
    ensures CountsDecembers(MonthStep(p))
  {
  }

  lemma MonthStepKeepsCalendar(p: Params)
    ensures KeepsCalendar(MonthStep(p))
  {
  }

  /** The list simulate.py returns, as a run result: every snapshot is
      clean; every debt but the last is positive and they strictly fall; a
      loop that ends by its condition ends on a paid debt, and the early exit
      on a debt at least the one before it. */
  predicate FallingList(r: RunResult) {
    && |r.snapshots| > 0
    && (forall i :: 0 <= i < |r.snapshots| ==> Clean(r.snapshots[i]))
    && (forall i :: 0 <= i < |r.snapshots| - 1 ==> r.snapshots[i].paymentSize > 0.0)
    && (forall i, j :: 0 <= i < j < |r.snapshots| - 1 ==> r.snapshots[j].paymentSize < r.snapshots[i].paymentSize)
    && (r.Finished? && r.exit == LoopEnded ==> r.snapshots[|r.snapshots| - 1].paymentSize <= 0.0)
    && (r.Finished? && r.exit == Stopped ==>
          |r.snapshots| >= 2
          && r.snapshots[|r.snapshots| - 1].paymentSize >= r.snapshots[|r.snapshots| - 2].paymentSize)
  }

  /** A run under simulate.py's test that starts from a snapshot of the live
      status builds a falling list. */
  lemma SnapshotListShape(step: LoopState -> LoopState, snap: PaymentStatus -> PaymentStatus,
                          ls: LoopState, fuel: nat)
    requires KeepsDebt(snap) && CleanSnapshots(snap)
    ensures FallingList(Run(step, snap, AgainstPrevious, ls, [snap(ls.status)], fuel))
  {
    var first := [snap(ls.status)];
    assert Clean(first[0]);
    RunSnapshots(step, snap, AgainstPrevious, ls, first, fuel);
    RunShape(step, snap, AgainstPrevious, ls, first, fuel);
    RunFalls(step, snap, ls, first, fuel);
    RunStopsOnRise(step, snap, ls, first, fuel);
  }

  /** `get_payment_status_list` returns a falling list. */
  lemma StatusListShape(p: Params, rows: seq<Record>, paymentSize: real, investmentSize: real,
                        initialPayment: real, startMonth: Month, fuel: nat)
    ensures FallingList(GetPaymentStatusList(p, rows, paymentSize, investmentSize, initialPayment, startMonth, fuel))
  {
    var ls := Start(rows, paymentSize, investmentSize, initialPayment, startMonth);
    SnapshotIsCopy();
    SnapshotListShape(MonthStep(p), Snapshot, ls, fuel);
    assert [Copy(ls.status)] == [Snapshot(ls.status)];
  }

  /** `simulate_payment`: the same loop under main.py's test; falling off the
      end of the function without a `return` gives `None`. */
  function SimulatePayment(p: Params, rows: seq<Record>, paymentSize: real, investmentSize: real,
                           initialPayment: real, startMonth: Month): (r: Option<seq<PaymentStatus>>)
    ensures r.None? <==> paymentSize - initialPayment <= 0.0
    ensures r.Some? ==> |r.value| == 2
  {
    var st := InitialStatus(rows, paymentSize, investmentSize, initialPayment);
    var ls := LoopState(st, 0, 0, startMonth);
    assert ls.status.paymentSize == paymentSize - initialPayment;
    SnapshotKeepsDebt();
    AgainstSelfReturns(MonthStep(p), Snapshot, ls, [Copy(ls.status)]);
    Returned(Run(MonthStep(p), Snapshot, AgainstSelf, ls, [Copy(ls.status)], 1))
  }

  /** Under main.py's test a single pass decides the value handed back: the
      list with the new snapshot when the debt is positive, `None` otherwise. */
  lemma AgainstSelfReturns(step: LoopState -> LoopState, snap: PaymentStatus -> PaymentStatus,
                           ls: LoopState, sims: seq<PaymentStatus>)
    requires KeepsDebt(snap) && |sims| > 0
    ensures Returned(Run(step, snap, AgainstSelf, ls, sims, 1)).None? <==> ls.status.paymentSize <= 0.0
    ensures Returned(Run(step, snap, AgainstSelf, ls, sims, 1)).Some? ==>
      Returned(Run(step, snap, AgainstSelf, ls, sims, 1)).value == sims + [snap(step(ls).status)]
    ensures Returned(Run(step, snap, AgainstSelf, ls, sims, 1)).Some? ==>
      |Returned(Run(step, snap, AgainstSelf, ls, sims, 1)).value| == |sims| + 1
  {
    if ls.status.paymentSize > 0.0 {
      AgainstSelfStopsAtOnce(step, snap, ls, sims, 1);
    }
  }

  /** The value the function hands back: the list on a `return`, `None` when
      the loop ends by its condition. */
  function Returned(r: RunResult): Option<seq<PaymentStatus>> {
    match r
    case Finished(Stopped, sims) => Some(sims)
    case _ => None
  }

  /** When main.py returns a list, it is the first two snapshots simulate.py
      takes from the same store. */
  lemma MainAgreesWithSimulate(p: Params, rows: seq<Record>, paymentSize: real, investmentSize: real,
                               initialPayment: real, startMonth: Month, fuel: nat)
    requires fuel > 0
    requires SimulatePayment(p, rows, paymentSize, investmentSize, initialPayment, startMonth).Some?
    ensures SimulatePayment(p, rows, paymentSize, investmentSize, initialPayment, startMonth).value
         == GetPaymentStatusList(p, rows, paymentSize, investmentSize, initialPayment, startMonth, fuel).snapshots[..2]
  {
    var ls := Start(rows, paymentSize, investmentSize, initialPayment, startMonth);
    SnapshotKeepsDebt();
    TestsAgreeOnFirstPass(MonthStep(p), Snapshot, ls, [Copy(ls.status)], fuel);
  }

  /** Rows of the store with positive magnitudes and frequencies. */
  predicate PositiveRows(rows: seq<Record>) {
    forall x :: x in rows ==> x.value > 0.0 && x.frequency > 0.0
  }

  lemma ItemsPositive(rows: seq<Record>, q: Queue)
    requires PositiveRows(rows)
    ensures Positive(Items(rows, q))
  {
    var items := Items(rows, q);
    forall b | b in items
      ensures b.value > 0.0 && b.frequency > 0.0
    {
      var i :| 0 <= i < |items| && items[i] == b;
      assert Select(rows, q)[i] in Select(rows, q);
    }
  }

  /** With positive items and a non-negative interest rate, simulate.py's loop
      stops after its first month: the debt cannot fall, so the early exit
      fires. At most two snapshots are taken. */
  lemma PositiveItemsStopAtOnce(p: Params, rows: seq<Record>, paymentSize: real, investmentSize: real,
                                initialPayment: real, startMonth: Month, fuel: nat)
    requires PositiveRows(rows) && p.paymentInterestRate >= 0.0
    requires paymentSize - initialPayment > 0.0 && fuel > 0
    ensures var r := GetPaymentStatusList(p, rows, paymentSize, investmentSize, initialPayment, startMonth, fuel);
      r == Finished(Stopped, r.snapshots) && |r.snapshots| == 2
  {
    var ls := Start(rows, paymentSize, investmentSize, initialPayment, startMonth);
    CopySorted(ls.status);
    StartOwing(rows, paymentSize, investmentSize, initialPayment, startMonth);
    StepNeverShrinksDebt(p, ls);
    NoProgressStops(MonthStep(p), Snapshot, ls, [Copy(ls.status)], fuel);
  }

  /** The starting status of positive rows satisfies `Owing`. */
  lemma StartOwing(rows: seq<Record>, paymentSize: real, investmentSize: real,
                   initialPayment: real, startMonth: Month)
    requires PositiveRows(rows)
    ensures StatusOwing(Start(rows, paymentSize, investmentSize, initialPayment, startMonth).status)
  {
    ItemsPositive(rows, ActiveMonthly);
    ItemsPositive(rows, ActiveYearly);
    ItemsPositive(rows, PendingMonthly);
    ItemsPositive(rows, PendingYearly);
    var st := Start(rows, paymentSize, investmentSize, initialPayment, startMonth).status;
    PositivePermutation(st.monthly.active, Items(rows, ActiveMonthly));
    PositivePermutation(st.yearly.active, Items(rows, ActiveYearly));
    PositivePermutation(st.monthly.pending, Items(rows, PendingMonthly));
    PositivePermutation(st.yearly.pending, Items(rows, PendingYearly));
  }
}
