# balance-simulation in Dafny

A model of the simulation core of balance-simulation, a small Python tool that
tracks recurring financial items (expenses, credits, payments, investments)
and projects, month by month, how a debt ("payment size") and an investment
evolve. The model covers:

- `Balance` (structs/balance.py): the three enumerations, the normalisation
  of an absent expiry (+infinity, here `Never`) and an absent start month
  (cycle 0), `balance_ratio`, `balance_value` and the `to_csv` record.
- `FinancialBreakdown` (structs/payment.py): the four-bucket ledger with
  `add_finance`, `+`/`+=`, `-` and the fold `compute_active_metric`. The
  `-` operator is modelled as written: the credit of `a - b` is
  `a.credit - b.debit`, so removing a ledger and adding it back shifts the
  credit bucket by that ledger's credit less its debit (`SubLeavesCredit`).
- `PaymentStatus` (structs/payment.py): construction with its stable
  descending sorts, `copy`, `update_metric`, `update_curr_month`,
  `update_curr_year`, `update_status` and `make_yearly_payment`. Items
  activated by a tick leave the pending queue and enter the breakdown, but
  are never appended to an active queue, exactly as the code does.
- The item store of balance_handler.py: the four selection flags over a
  table of records, `add_balances`, `update_balances_by_id` (with its
  `ValueError` on an unknown id) and `remove_balances_by_id`.
- The loop of `get_payment_status_list` (simulate.py) and of
  `simulate_payment` (main.py). Both are one generic `Run` that differs
  only in the early-exit test. simulate.py compares the previous snapshot's
  debt with the live one. main.py compares the snapshot it has just taken
  with the live status, so it always returns after the first pass, and it
  returns `None` when the debt is not positive at the start.

Floats are modelled as `real` and pandas tables as sequences of `Record`.
A Python exception is `None` of an `Option`, except in
`update_balances_by_id`: there the `ValueError` is a result whose `missing`
field names the unknown id and whose rows keep the updates made before it. The clock (`datetime.now()`) is
the `startMonth` parameter. The environment rates are the `Params` record.

Some behaviour of the code is not what its names suggest; the model follows
the code:
- Payment items carry a negative `balance_value`, and `update_status`
  subtracts the payment bucket. So positive payment items make the debt
  grow, and with a non-negative interest rate the simulate.py loop stops
  after one month (`PositiveItemsStopAtOnce`). It does not pay the debt
  down month by month.
- Activated pending items are not moved to the active queue.
- Snapshots are `copy()` results. Their breakdowns are recomputed from the
  active queues and their total breakdown is zero.

## Model

| member | source | states |
|---|---|---|
| Balances.KindPredicatesSingleOut | structs/balance.py:12-16 | `is_investment` holds for the investment kind only, `is_payment` for the payment kind only, and never both |
| Balances.NormaliseExpiry | structs/balance.py:42 | an absent expiry becomes +infinity (`Never`); a given one is kept |
| Balances.NormaliseStart | structs/balance.py:43 | an absent start month becomes cycle 0; a given one is kept (the intended reading of the line) |
| Balances.FromRecord | structs/balance.py:26-52 | constructing an item keeps id and kind and stores the normalised expiry and start month |
| Balances.ToCsv | structs/balance.py:54-65 | with the corrected start rule, the written record always has an expiry and a start month, and keeps the id |
| Balances.CsvRoundTrip | structs/balance.py:54-65 | rebuilding an item from its `to_csv` record gives the same item |
| Balances.RecordRoundTrip | structs/balance.py:54-65 | writing a constructed record back changes it only by filling in the normalised expiry and start |
| Balances.AbsentEqualsExtreme | structs/balance.py:41-43 | an absent expiry is the same as +infinity, and an absent start is the same as start 0 |
| Balances.BalanceRatio | structs/balance.py:67-79 | the ratio is the per-month rate for monthly items and twelve times it for yearly items, and positive for a positive frequency |
| Balances.RatioCases | structs/balance.py:67-79 | matching spread and unit gives the frequency; a yearly unit on a monthly spread divides by 12; a monthly unit on a yearly spread multiplies by 12 |
| Balances.BalanceValueSign | structs/balance.py:81-85 | the contribution is plus or minus `value * ratio`; with positive magnitude and frequency it is negative exactly for expense and payment items |
| Balances.StartMonthAsWritten | structs/balance.py:43 | as written, a given start month is replaced by the field default `None`, and only an absent one becomes 0 |
| Balances.StartMonthIsLost | structs/balance.py:43 | for every record with a start month, the as-written value differs from the normalised one, which keeps the month |
| Breakdowns.AddFinanceAsWritten | structs/payment.py:13-24 | as written, `add_finance` raises exactly on expense items and otherwise agrees with the corrected routing |
| Breakdowns.AddFinanceRoutes | structs/payment.py:13-24 | the item's signed value goes to the bucket of its kind, and the other three buckets are unchanged |
| Breakdowns.AddBuckets | structs/payment.py:33-39 | every bucket of a sum is the sum of the two buckets |
| Breakdowns.SubBuckets | structs/payment.py:41-47 | every bucket of a difference except credit is the difference of the buckets; credit loses the other operand's debit |
| Breakdowns.SubUndoesAdd | structs/payment.py:41-47 | subtracting undoes adding, in either order, if and only if the operand's credit equals its debit |
| Breakdowns.SubSelf | structs/payment.py:41-47 | a ledger minus itself is zero except for the credit, which keeps credit less debit; it is zero if and only if they are equal |
| Breakdowns.SubLeavesCredit | structs/payment.py:41-47 | subtracting a ledger and adding it back restores every bucket except credit, which gains that ledger's credit less its debit |
| Breakdowns.AddCommutes | structs/payment.py:33-39 | `+` is commutative |
| Breakdowns.AddAssociates | structs/payment.py:33-39 | `+` is associative, so repeated `+=` does not depend on grouping |
| Breakdowns.AddZero | structs/payment.py:8-11 | a fresh ledger is the identity of `+` |
| Breakdowns.FoldIsSum | structs/payment.py:83-90 | each bucket of `compute_active_metric` is the total signed value of the items of its kind (reference definition `Sum`) |
| Breakdowns.FoldAppend | structs/payment.py:83-90 | the ledger of a concatenation is the sum of the two ledgers |
| Breakdowns.AddFinanceIsAddSingle | structs/payment.py:13-24 | one `add_finance` adds the ledger of that single item |
| Breakdowns.FoldSigns | structs/payment.py:83-90 | for positive items, the debit and payment buckets are never positive and the credit and investment buckets never negative |
| Breakdowns.FoldPermutation | structs/payment.py:83-90 | the ledger does not depend on the order of the items |
| Queues.Insert | structs/payment.py:73-77 | inserting into a descending list keeps it descending and adds one element |
| Queues.Sort | structs/payment.py:73-77 | the result of `sort(key, reverse=True)` is descending by key and has the input's length |
| Queues.SortPermutes | structs/payment.py:73-77 | sorting only reorders: same elements, same multiplicities |
| Queues.SortStable | structs/payment.py:73-77 | the sort is stable: the items with any one key keep their input order |
| Queues.SortSorted | structs/payment.py:73-77 | sorting an already descending list leaves it unchanged |
| Queues.PopRun | structs/payment.py:96-97 | the loop pops a suffix whose keys all equal the cycle, stops before a different key, and accumulates exactly the popped items |
| Queues.UpdateMetric | structs/payment.py:92-99 | what remains is a prefix; the removed suffix is exactly the tail run with key equal to the cycle; the ledger is that suffix's fold; nothing is popped when the tail key differs |
| Queues.UpdateMetricKeepsSorted | structs/payment.py:92-99 | what remains of a sorted queue stays sorted |
| Queues.UpdateMetricAsWritten | structs/payment.py:96 | as written, `update_metric` raises exactly on a non-empty list and agrees with the corrected version on an empty one |
| Queues.PopsEveryDueItem | structs/payment.py:92-99 | on a sorted queue with no key below the cycle, exactly the items whose key equals the cycle are popped, and the ledger is their fold |
| Statuses.NewSchedule | structs/payment.py:72-80 | both queues are sorted permutations of the inputs, and the breakdown is the fold of the active items |
| Statuses.NewScheduleStable | structs/payment.py:73-77 | construction keeps the input order among items with equal keys |
| Statuses.NewStatus | structs/payment.py:57-81 | the constructed status is well formed, keeps the sizes and the four item multisets, folds the active lists and has a zero total |
| Statuses.CopySorted | structs/payment.py:122-130 | a copy of a sorted status has the same queues and sizes, breakdowns recomputed from the active items, and a zero total |
| Statuses.CopyIdempotent | structs/payment.py:122-130 | copying a copy gives the copy |
| Statuses.Tick | structs/payment.py:107-111 | a tick keeps prefixes of both queues, removes only items due at the cycle, stops each queue at an empty queue or a tail not due at the cycle, and adds activation minus removal to the breakdown |
| Statuses.OverdueTailBlocks | structs/payment.py:92-111 | a queue whose tail key has already passed is left whole by a tick, so items behind it that are due are never popped |
| Statuses.TickSorted | structs/payment.py:107-111 | on a sorted schedule with nothing overdue, exactly the due items leave each queue, the queues stay sorted, and the breakdown changes by the folds of the due items |
| Statuses.TickTracksActive | structs/payment.py:107-111 | a breakdown equal to the active fold plus an offset stays so; the offset gains the activated items and the credit-minus-debit that `-` leaves behind |
| Statuses.TickKeepsOwing | structs/payment.py:107-111 | with positive items, a tick keeps the payment bucket at most the active items' payment total, and so never positive |
| Statuses.UpdateCurrMonth | structs/payment.py:107-111 | only the monthly schedule changes, and it changes by a tick |
| Statuses.UpdateCurrYear | structs/payment.py:101-105 | only the yearly schedule changes, and it changes by a tick |
| Statuses.UpdateStatus | structs/payment.py:113-117 | the debt falls by the payment bucket, the investment grows by the investment bucket, the ledger is recorded, and the schedules are unchanged |
| Statuses.UpdateStatusWithItems | structs/payment.py:113-117 | recording the ledger of positive items never shrinks the debt and never shrinks the investment |
| Statuses.MakeYearlyPayment | structs/payment.py:119-120 | the investment is scaled by `1 - percentage`, so it stays between 0 and its old value when the percentage is in [0, 1] and the investment is not negative; nothing else changes |
| Handler.QueueOf | balance_handler.py:55-69 | each of the four flags holds exactly when the record is placed in that flag's queue, so exactly one flag holds |
| Handler.Select | simulate.py:17-20 | a selection holds exactly the rows of the table that raise its flag; `SelectAppend` states that it keeps their table order |
| Handler.SelectAppend | balance_handler.py:55-69 | selecting keeps table order: the selection of two tables in sequence is the two selections in sequence |
| Handler.SelectSnoc | balance_handler.py:55-69 | a row appended to a table is appended to its own queue's selection and to no other |
| Handler.SelectSingle | balance_handler.py:55-69 | a one-row table selects its row for the row's own queue and nothing for the others |
| Handler.SelectPartitions | balance_handler.py:55-69 | the four selections together hold every row of the table exactly once |
| Handler.Items | simulate.py:25-28 | the items are the constructed rows of the selection, in order |
| Handler.AddBalances | balance_handler.py:71-76 | the table is extended by one record per item, in order: each new row is that item's `to_csv` record, which (with the corrected start rule) rebuilds the item |
| Handler.AddedRowsArePending | balance_handler.py:71-76 | with the corrected start rule, every record written by `add_balances` has a start month, so it is selected as pending |
| Handler.Overwrite | balance_handler.py:83-86 | the rows with the item's id become its record; the others are untouched |
| Handler.UpdateBalancesById | balance_handler.py:78-89 | an error is raised if and only if some item's id is missing; without one, every row holds the record of the last item with its id; ids and length are kept |
| Handler.UpdateStopsAtFirstMissing | balance_handler.py:78-89 | the error names the first missing id, and the table holds exactly the updates of the items before it |
| Handler.RemoveBalancesById | balance_handler.py:91-95 | a row survives if and only if its id is not listed; an empty list leaves the table as it is |
| Handler.RemoveKeepsOrder | balance_handler.py:91-95 | removing distributes over concatenation, so the survivors keep their order |
| Handler.RemoveIdempotent | balance_handler.py:91-95 | removing the same ids twice is removing them once |
| Simulation.Taxed | simulate.py:53-54 | the debit gains the tax on earnings plus credit, the investment gains the earnings, and credit and payment are unchanged |
| Simulation.Step | simulate.py:37-56 | the monthly schedule ticks at the month cycle and the yearly one only in December; the ledger is the taxed month ledger; the debt is compounded and then reduced by the payment bucket |
| Simulation.StepInvestment | simulate.py:46-56 | the investment is skimmed by the yearly percentage in December and then credited with the ledger's investment bucket |
| Simulation.StepPayment | simulate.py:44-47 | the payment bucket is the ticked monthly one, plus the untouched yearly one in December |
| Simulation.StepKeepsOwing | simulate.py:42-51 | a month step keeps the payment invariant of both schedules |
| Simulation.StepPaymentNonPositive | simulate.py:44-56 | with positive items, the month's payment bucket is never positive |
| Simulation.StepNeverShrinksDebt | simulate.py:37-56 | with positive items and a non-negative rate, a step never lowers a positive debt |
| Simulation.MonthsLaterIsModular | simulate.py:62-63 | advancing the calendar month one step at a time from 12 wraps to 1, so `k` months after `m` is month `(m - 1 + k) mod 12 + 1` |
| Simulation.DecemberOncePerYear | simulate.py:46-51 | of the calendar alone: `k` months after `m` is December exactly when `m + k` is a multiple of twelve, and the calendar repeats every twelve months; `PassCalendar` carries this to the loop's passes |
| Simulation.TraceCalendar | simulate.py:36-63 | for a loop body that keeps the calendar, the state at pass `k` has cycle index `k` past the start and the `k`-th calendar month after the starting one |
| Simulation.RunPass | simulate.py:36-57 | snapshot `k` after the initial list is the copy of the loop body run from the state `Trace` gives for pass `k` |
| Simulation.RunCalendar | simulate.py:36-63 | snapshot `k` is taken after the body ran at cycle index `k` past the start, in a month that is December exactly when the starting month plus `k` is a multiple of twelve |
| Simulation.TraceYear | simulate.py:46-51 | for a loop body that raises the year index exactly in December, the year index at pass `k` is the start's plus the number of times the calendar has wrapped, `(month - 1 + k) / 12` |
| Simulation.MonthStepCounts | simulate.py:46-51 | the month step raises the year index by one exactly in December and leaves the cycle index and month alone |
| Simulation.MonthStepKeepsCalendar | simulate.py:37-56 | the month step leaves the cycle index and the calendar month to the advance at the end of the pass |
| Simulation.PassCalendar | simulate.py:36-63 | in the loop of `get_payment_status_list`, snapshot `k` after the first is the copy of the month step run at cycle index `k`, in month `MonthsLater(start, k)`, so the December-only yearly step runs once in every twelve passes, with the year index counting the Decembers passed |
| Simulation.Run | simulate.py:36-63 | a run only appends snapshots, and a non-positive debt ends it at once by the loop condition |
| Simulation.RunFuelMonotone | simulate.py:36-63 | a run that finished within some fuel is unchanged by one more unit of fuel |
| Simulation.RunFuelIrrelevant | simulate.py:36-63 | a run that finished within some fuel is unchanged by any larger fuel |
| Simulation.RunShape | simulate.py:36-63 | every snapshot the loop went on from has a positive debt, and a loop ended by its condition ends on a non-positive one |
| Simulation.RunFalls | simulate.py:57-60 | under simulate.py's test, the recorded debts strictly fall up to the last one |
| Simulation.RunStopsOnRise | simulate.py:59-60 | under simulate.py's test, the early exit fires only on a debt at least the previous one |
| Simulation.RunSnapshots | simulate.py:57 | every appended snapshot is sorted and has a zero total |
| Simulation.SnapshotIsCopy | structs/payment.py:122-130 | a `copy` keeps the debt and is clean |
| Simulation.AgainstSelfStopsAtOnce | main.py:65-68 | under main.py's test, a positive debt returns after one pass with exactly one new snapshot |
| Simulation.AgainstSelfReturns | main.py:44-71 | under main.py's test, `None` is returned if and only if the debt is not positive; otherwise the list with the one new snapshot |
| Simulation.FirstPass | simulate.py:36-57 | from a positive debt, the next snapshot is the copy of the stepped status |
| Simulation.TestsAgreeOnFirstPass | main.py:65-68 | the list main.py's test returns is the prefix of the one simulate.py's test builds |
| Simulation.NoProgressStops | simulate.py:59-60 | a first step that does not lower the debt ends simulate.py's loop after one snapshot |
| Simulation.InitialStatus | simulate.py:17-29 | the initial status is sorted with a zero total; the initial payment is taken off both sizes; the queues hold exactly the four selections |
| Simulation.GetPaymentStatusList | simulate.py:12-65 | the list starts with the copy of the initial status; a non-positive starting debt gives that one snapshot; a positive one with positive fuel gives at least two |
| Simulation.GetPaymentStatusListFuel | simulate.py:12-65 | once the list is returned within some fuel, any larger fuel returns the same list |
| Simulation.SnapshotListShape | simulate.py:31-63 | a run under simulate.py's test, started from a snapshot of the live status, builds a falling list |
| Simulation.StatusListShape | simulate.py:12-65 | the returned list is clean; its debts are positive and strictly falling until the last; it ends paid or on a rise |
| Simulation.SimulatePayment | main.py:20-71 | `None` if and only if the starting debt is not positive; otherwise a list of exactly two snapshots |
| Simulation.MainAgreesWithSimulate | main.py:20-71 | a list returned by main.py is the first two snapshots of simulate.py's list for the same store |
| Simulation.PositiveItemsStopAtOnce | simulate.py:36-60 | with positive items and a non-negative rate, simulate.py's loop stops early after exactly one month |
| Simulation.StartOwing | simulate.py:22-29 | the starting status of positive rows satisfies the payment invariant |

## Left out

- gui.py, the argument parsing of main.py and `read_balance`: console and window input only.
- The default argument values of `get_payment_status_list` and `simulate_payment` (zero for `initial_payment`, `profit_tax` and `investment_yearly_percentage`): every argument is an explicit parameter or a field of `Params`, so a caller passes the defaults as zeros.
- Simulation.PassCalendar: stated for the loop from any starting state; the entry point runs that loop from `Start(...)` (cycle 0, the starting month), which its body shows, and no separate lemma restates this for `GetPaymentStatusList`.
- Reading and writing the CSV file, `_init_dataframe` and config.py: I/O. The rates are passed as `Params`, and the store is a sequence of `Record`.
- The plotting in simulate.py after the loop (from line 67) and its extra-credit series: display only.
- `datetime.now()` and `relativedelta`: the starting calendar month is the `startMonth` parameter, and the next month is `NextMonth`.
- Floating point: floats are `real` and `np.inf` is `Never`; pandas dtype conversions are not modelled.
- Balances.NormaliseExpiry: an empty expiry cell is modelled as absent and becomes `Never`. In the source pandas reads it as NaN, which the `is not None` test at structs/balance.py:42 lets through, so `_expiry` is NaN. NaN equals no cycle and compares false with every key, so the source's descending sort does not order it: with rows B (monthly, expiry 3) then A (monthly, empty expiry) the source keeps [B, A], the tail A is never due and B is never removed, whereas the model sorts [A, B] and removes B at cycle 3. NaN keys are not modelled.
- `FinancialBreakdown.copy`: the identity on immutable values, so it has no member of its own.
- Simulation.Run: carries a `fuel` bound so that it terminates; `OutOfFuel` is not behaviour of the source, whose loop may run forever. A run that finishes does not depend on the fuel (`RunFuelIrrelevant`, `GetPaymentStatusListFuel`).
- Handler.UpdateBalancesById: the pandas `.loc` column assignment is modelled as replacing each matching row by the item's whole record.
- Balances.FromRecord: models the intended start-month normalisation. The as-written line is modelled on its own (see Findings), and its effect on later ticks is not followed through. Balances.ToCsv, Handler.AddBalances and Handler.AddedRowsArePending hold only under the corrected rule: as written, an item given a start month stores `None`, so `to_csv` writes an empty start cell and the row written back is selected as active rather than pending, while an item without a start month is written with start 0 and becomes pending. The two queues swap on write-back, and the model does not follow this.
- The as-written `add_finance` and `update_metric` are modelled on their own (see Findings). The rest of the model uses the corrected versions, so the exceptions the as-written ones would raise during construction and ticks are not followed through.
- The order of compounding: the month step compounds the debt after the ticks rather than before them. Compounding reads only the debt from before the month, so the result is the same.

## Findings

| source | as written | input that shows it | evidently intended | confidence | as-written member | corrected member |
|---|---|---|---|---|---|---|
| structs/payment.py:15 | the expense branch adds `Balance.balance_value`, the property object of the class, to a float, which raises `TypeError` | any item of kind expense, e.g. a monthly expense of 100 | add the item's own `balance.balance_value` to the debit bucket | high, not executed | Breakdowns.AddFinanceAsWritten | Breakdowns.AddFinanceRoutes |
| structs/payment.py:96 | the loop compares `occ` with `metric[-1][0]`, and a `Balance` cannot be indexed, so it raises `TypeError` | any non-empty queue, e.g. one active monthly item | compare `occ` with the tail item's key (`_expiry` or `_start_month`) | high, not executed | Queues.UpdateMetricAsWritten | Queues.PopsEveryDueItem |
| structs/balance.py:43 | `self.start_month` reads the class default of the init-only field, which is `None`, instead of the argument | a record with start month 5 is stored with start month `None` | store the given `start_month`, or 0 when it is absent | high, not executed | Balances.StartMonthIsLost | Balances.NormaliseStart |
