# Wagner–Whitin lot sizing in Dafny

This project models the dynamic lot-sizing programs of the repository and
proves properties about them. The lot-sizing problem is this: the demand
`d[t]` of each period `t = 0..T-1` must be met from stock. An order placed
in period `j` costs `o[j]`, and every unit carried from period `k` into
`k + 1` costs `h[k]`. The Wagner–Whitin algorithm chooses, for each period
`t`, the period `j <= t` whose order covers it. It does this with a forward
recursion

    F(t) = min over j in [t**, t] of  o[j] + S_t(j) + F(j - 1),    F(-1) = 0
    S_t(j) = h[j] * (d[j+1] + ... + d[t]) + S_t(j + 1)

and then walks the cover map backwards to produce the order quantities.

The modules follow the source:

- `CumSum` (`cumsum.dfy`) holds the prefix-sum helper `CumSumList`. It is a
  class whose constructor fills an array of running totals. `Total` is the
  sum of a sequence, and this file also has its algebra.
- `Recurrence` (`recurrence.dfy`) holds the input guard `_validate_inputs`.
  It also states the recursion declaratively:
  - `HoldingCost` is S_t(j).
  - `Bound` is the planning-horizon bound t\*\*.
  - `Step` and `CostTable` describe the cost table F and the cover map.

  A tie goes to the latest order period, as `min_args.index(min(min_args))`
  over the reversed scan makes it.
- `Reconstruction` (`reconstruction.dfy`) holds the backward pass, proved
  against the schedule function `Schedule`, and the properties of that
  schedule.
- `Solver` (`solver.dfy`) holds the solver `wagner_whitin` of
  `wagner_whitin.py`. The forward pass works over arrays, like the source's
  dict `F` (offset by one) and its dict `cover_by`. It is followed by the
  backward pass and the guarded entry point, and the solver is specified by
  `SolvedBy`.
- `Evaluator` (`evaluator.dfy`) holds the simulator `evaluate`. It proves
  that the simulator scores the solver's schedule at exactly the solver's
  cost.
- `Horizon` (`horizon.dfy`) proves the Planning Horizon theorem behind t\*\*.
  With no negative demand, order cost or holding cost, an order period below
  t\*\* never beats the candidates the scan keeps. So the pruned recursion
  the solver runs is exactly the unrestricted recursion over [0, t].
- `Optimality` (`optimality.dfy`) proves the Wagner–Whitin optimality
  theorem. Under the same sign conditions, no schedule that `evaluate`
  accepts costs less than the solver's plan. Together with
  `SolverEvaluatorAgree`, the solver's cost is the least cost the simulator
  can give. This module also holds the worked tie example and the holding-cost finding below.
- `App` (`app.dfy`) holds the scalar-cost solver of `app.py`. It is the same
  algorithm with one order cost and one holding cost for all periods.
- `Within` (`within.dfy`) holds the separate O(n²) program `wagner_within`
  of `main.py`. That program charges a fixed cost per period (`s * (i - j)`)
  and a unit production cost (`u * quantity`). Because of this cost model,
  every split into lots costs the same. `Within.ClosedForm` proves this:
  best\[i] = s·i + u·(d\[0] + … + d\[i-1]), and the kept plan is one lot in
  period 0.

The source's run-time failures are modelled as `Failure` values of a
`Result`. These are the failed `assert`s of the guard and the evaluator, and
the `IndexError`s of list lookups.

The guard does not check the sign of the holding costs
(`wagner_whitin.py:77-85`). The model follows the code on this, and
"## Findings" shows an accepted input on which a negative holding cost makes
the pruning lose the cheapest plan.

## Model

| member | source | states |
|---|---|---|
| CumSum.Zeros | wagner_whitin.py:67 | the list `[0] * n` has n entries, all zero, summing to 0 |
| CumSum.CumSumList.constructor | wagner_whitin.py:6-11 | after construction `cumsums[i]` is `elements[0] + ... + elements[i]` for every i, in a fresh array; app.py:54-60 is a copy of the same class |
| CumSum.CumSumList.SumBetween | wagner_whitin.py:13-19 | 0 when i > j; otherwise the sum of the elements from max(i, 0) up to j inclusive, with a j past the end clamped to the last element; app.py:62-67 is the same method |
| Recurrence.ValidateInputs | wagner_whitin.py:77-85 | passes exactly when the lengths agree (holding costs n or n - 1 long), the last demand is positive and no demand or order cost is negative; otherwise names the first failing guard in source order, each error as an if-and-only-if |
| Recurrence.HoldingCost | wagner_whitin.py:48-51 | S_t(j) = h[j]·(d[j+1] + … + d[t]) + S_t(j + 1), the value of the accumulator `S_t` once the reversed scan has reached j; its properties are stated by Horizon.HoldingGap, Horizon.HoldingZeroDemand and Recurrence.HoldingCostIgnoresLast |
| Recurrence.Candidate | wagner_whitin.py:52 | one entry of `min_args`: o[j] + S_t(j) + F(j - 1), with F offset by one |
| Recurrence.Step | wagner_whitin.py:39-62 | one period of the forward loop: a zero-demand period repeats F(t - 1) and covers itself; otherwise the cover period lies in [t\*\*, t], F(t) is its candidate, no candidate in [t\*\*, t] is lower, and every later one is strictly higher |
| Recurrence.CostTable | wagner_whitin.py:29-62 | F(-1) = 0, and every period satisfies Step over the table before it |
| Recurrence.Bound | wagner_whitin.py:57-58 | t\*\* is never negative, and after a positive-demand period it is at least that period's cover period |
| Recurrence.BoundMonotone | wagner_whitin.py:58 | t\*\* never decreases from one period to a later one |
| Recurrence.BoundBelowPeriod | wagner_whitin.py:50 | the candidate range [t\*\*, t] is never empty, and every period is covered by itself or an earlier period |
| Recurrence.ExtendTable | wagner_whitin.py:39-62 | a zero-demand period that repeats F(t - 1) and covers itself, or a least candidate over [t\*\*, t] with the largest index reaching it, extends the cost table by one period |
| Recurrence.CostTableStep | wagner_whitin.py:40-42 | a zero-demand period has F(t) = F(t - 1) and covers itself; a positive-demand period has F(t) equal to the candidate of its cover period |
| Recurrence.StepUnique | wagner_whitin.py:54-62 | over the same earlier table one period has one least cost and one chosen cover period |
| Recurrence.CostTableUnique | wagner_whitin.py:37-62 | the recursion determines the whole cost table and cover map |
| Recurrence.HoldingCostIgnoresLast | wagner_whitin.py:48-51 | S_t(j) does not depend on the last holding cost h[T - 1]: that entry is read only at j = t = T - 1, where it multiplies the empty demand range d[T..T - 1] |
| Recurrence.CostTableIgnoresLastHolding | wagner_whitin.py:51 | a cost table for h is a cost table for h with its last entry replaced by any value |
| Reconstruction.Schedule | wagner_whitin.py:69-71 | the schedule prescribed for periods 0..t has t + 1 entries |
| Reconstruction.PlaceInterval | wagner_whitin.py:69-71 | one turn of the backward loop keeps periods up to the new t at zero and the rest equal to the prescribed schedule |
| Reconstruction.WalkEnds | wagner_whitin.py:66-73 | the walk starts from T zeros and, once past period 0, has written the full schedule |
| Reconstruction.Reconstruct | wagner_whitin.py:64-73 | the backward loop writes exactly the schedule the cover map prescribes |
| Reconstruction.ScheduleTotal | wagner_whitin.py:70 | the schedule for 0..t orders exactly the demand of 0..t |
| Reconstruction.ScheduleFeasible | wagner_whitin.py:64-73 | with no negative demand, what is ordered by the end of each period covers the demand so far |
| Reconstruction.ScheduleOrdersAtCoverPeriods | wagner_whitin.py:69-70 | every non-zero order sits at the cover period k of some period e and equals the demand of k..e |
| Reconstruction.ScheduleShape | wagner_whitin.py:64-75 | with no negative demand, the full schedule orders the total demand, never runs short, never orders a negative amount, and each order is the demand of the run of periods it starts |
| Solver.IndexOfMin | wagner_whitin.py:55 | the result indexes a minimum of the list and no earlier entry equals it |
| Solver.ScanCandidates | wagner_whitin.py:48-55 | the cost is the least candidate over [t\*\*, t], reached at the returned period, and every later period in range costs strictly more |
| Solver.FillPeriod | wagner_whitin.py:37-62 | one turn of the forward loop extends the cost table and cover map by one period, leaves every other entry of both arrays unchanged, and moves t\*\* to the bound for the longer prefix |
| Solver.ForwardPass | wagner_whitin.py:25-62 | the arrays it fills are the cost table and cover map of the recursion for all T periods |
| Solver.Solve | wagner_whitin.py:25-75 | the returned plan is the cost F(T - 1) and the schedule of the recursion's cover map |
| Solver.WagnerWhitin | wagner_whitin.py:21-75 | the guard's failure is returned unchanged; a holding series one entry short ends in an index error; otherwise the plan of the recursion is returned |
| Solver.WagnerWhitinCorrected | wagner_whitin.py:82 | every input the guard accepts is solved, a short holding series being completed with an arbitrary last entry |
| Solver.ShortHoldingPassesGuard | wagner_whitin.py:82 | demands [5], order costs [10] and holding costs [] pass the guard |
| Solver.SolvedByUnique | wagner_whitin.py:75 | one input has at most one solver result |
| Solver.LastHoldingUnused | wagner_whitin.py:51 | a plan solves h exactly when it solves h with the last entry replaced by any value |
| Solver.CorrectedAgrees | wagner_whitin.py:82 | the corrected solver leaves a full-length holding series unchanged, and a short one is solved as every completion of it is |
| Solver.SolutionProperties | wagner_whitin.py:64-75 | with no negative demand, the returned solution has one entry per period, orders the total demand, is never short, has no negative order, and each order is the demand of the run of periods it starts |
| Evaluator.EvaluateSpec | wagner_whitin.py:87-103 | succeeds exactly when the sums agree, all four series have one length and no period ends short; reports a sum mismatch before a length mismatch |
| Evaluator.StockAfter | wagner_whitin.py:92-96 | `in_stock` after the first k periods in closed form: ordered so far minus demanded so far; Evaluator.StockStep ties it to the accumulator |
| Evaluator.StockStep | wagner_whitin.py:92-96 | the closed-form stock is 0 before the first period and each period adds its order and removes its demand, as `in_stock` is updated |
| Evaluator.PeriodCharge | wagner_whitin.py:96-100 | what one period adds to `cost`: its order cost if it orders a positive amount, plus its holding cost times the stock it carries out |
| Evaluator.ChargeRange | wagner_whitin.py:91-100 | the sum of the period charges over a range of periods, which is what the loop accumulates |
| Evaluator.Evaluate | wagner_whitin.py:87-103 | the single pass returns the charges of all periods: order costs of ordering periods plus holding on the stock carried out of each period, or the first failing check |
| Evaluator.IntervalCharge | wagner_whitin.py:95-100 | inside an interval served by one order at j, the simulator charges o[j] if the order is positive, plus S_t(j) |
| Evaluator.ScheduleCost | wagner_whitin.py:64-73 | with no negative demand, the simulator charges the schedule for 0..t exactly F(t) |
| Evaluator.SolverEvaluatorAgree | wagner_whitin.py:87-103 | with no negative demand the simulator accepts the solver's solution and scores it at the solver's cost |
| Horizon.HoldingGap | wagner_whitin.py:48-51 | with no negative demand or holding cost, for order periods a ≤ b ≤ t1 ≤ t2, the extra holding cost of ordering at a instead of b is at least as large for t2 as for t1 |
| Horizon.HoldingZeroDemand | wagner_whitin.py:48-51 | a period without demand adds no holding cost to S_t(j) |
| Horizon.BoundWitness | wagner_whitin.py:57-58 | a positive t\*\* is the cover period of some earlier period with demand |
| Horizon.CostTableMin | wagner_whitin.py:50-62 | the cover period lies in [0, t]; in a period with demand, F(t) is at most every candidate over [t\*\*, t] and strictly below every candidate after the cover period |
| Horizon.CandidateGap | wagner_whitin.py:48-52 | with no negative demand or holding cost, for order periods j ≤ k and periods t1 ≤ t, the lead of the candidate at k over the one at j never shrinks from t1 to t |
| Horizon.PlanningHorizon | wagner_whitin.py:57-58 | with no negative demand, order cost or holding cost, F(t) is at most the candidate of every order period in [0, t], not only those in [t\*\*, t] |
| Horizon.PrunedIsFull | wagner_whitin.py:50 | under those sign conditions, the table of the pruned recursion satisfies the unrestricted recursion over [0, t], with the same tie rule |
| Horizon.CoverAboveBound | wagner_whitin.py:57-58 | with no negative demand or holding cost, in the unrestricted recursion, the cover period chosen for a period with demand is never below t\*\* |
| Horizon.FullIsPruned | wagner_whitin.py:37-62 | with no negative demand or holding cost, a table of the unrestricted recursion is a table of the pruned recursion |
| Horizon.PrunedIffFull | wagner_whitin.py:37-62 | under those sign conditions, a table is one the solver's pruned recursion produces exactly when it is one the unrestricted recursion produces |
| Optimality.SolvedByIffFull | wagner_whitin.py:37-75 | under those sign conditions, a plan is the solver's plan exactly when it comes from the unrestricted recursion and the backward pass |
| Optimality.NoDemandNoCost | wagner_whitin.py:40-42 | with no demand in periods 0..t, F(t) is 0 |
| Optimality.TailCharge | wagner_whitin.py:95-100 | with no negative holding cost, if a schedule orders at j and not again up to t, and is not short after t, the simulator charges periods k..t at least S_t(k), plus o[j] when k is j |
| Optimality.LowerBound | wagner_whitin.py:87-103 | with no negative demand, order cost or holding cost, every schedule that is never short in 0..t is charged at least F(t) for those periods |
| Optimality.SolverIsOptimal | wagner_whitin.py:21-103 | with no negative demand, order cost or holding cost, every schedule `evaluate` accepts costs at least the solver's cost |
| Optimality.TieGoesToLatestOrder | wagner_whitin.py:50-62 | for demands 5, 0, 5 at order cost 10 and holding cost 1, the simulator scores both ordering at periods 0 and 2 and ordering 10 at period 0 at 20; the solver returns the plan that orders again in period 2 |
| Optimality.NegativeHoldingMissesCheaperPlan | wagner_whitin.py:77-85 | demands [0, 1, 1], order costs [1, 0, 0], holding costs [-1, 0, 0] pass the guard; the solver's plan costs 0, while `evaluate` scores ordering both units in period 0 at -1 |
| Optimality.WagnerWhitinChecked | wagner_whitin.py:21-85 | the guard with the missing sign check on holding costs: it reports the guard's failures unchanged and rejects exactly the accepted inputs with a negative holding cost; every other input is solved, and no schedule `evaluate` accepts costs less than the returned plan |
| App.Repeat | app.py:11-12 | the constant series has n entries, each equal to the constant |
| App.WagnerWhitin | app.py:10-52 | no demands, a non-positive last demand and a negative demand each fail, as if-and-only-if; otherwise the plan is the general solver's plan on constant cost series |
| App.MatchesGeneralSolver | app.py:10-52 | with a non-negative order cost the constant series pass the general guard, and the scalar solver's plan is the only plan the general solver can return |
| Within.Best | main.py:14-25 | dp[i]: 0 for i = 0, otherwise the cost of the candidate the scan keeps |
| Within.RunCost | main.py:19-22 | `toplam_maliyet` for j and i: dp[j] plus the per-period cost for i - j periods plus the unit cost of the lot d[j] + … + d[i-1] |
| Within.Pick | main.py:17-25 | the j the scan keeps for period i: a later j replaces the kept one only when it is strictly cheaper |
| Within.PlanOf | main.py:27 | `uretim_planlari[i]`: the plan kept for the chosen j followed by the lot d[j] + … + d[i-1] |
| Within.Scaled | main.py:11-28 | `dönemlik_maliyetler[i]`: each lot of the plan priced at the unit production cost; its shape is stated by Within.ScaledEntries |
| Within.ScaledEntries | main.py:28 | the price list has one entry per lot, equal to the lot times the unit cost |
| Within.ConsiderCandidate | main.py:18-28 | entry i now holds the kept candidate among 0..j, with its plan and lot prices; no other entry changes |
| Within.ScanPeriod | main.py:17-28 | after the scan of period i, entry i holds best[i], its plan and its lot prices; no other entry changes |
| Within.WagnerWithin | main.py:3-30 | the total is best[n], and every plan and price list is the one the recursion keeps |
| Within.PickIsFirstMinimum | main.py:24-25 | the kept candidate costs no more than any candidate scanned, and strictly less than every earlier one |
| Within.BestIsFirstMinimum | main.py:16-25 | best[i] is the least candidate cost over all j < i, reached at a first minimising j |
| Within.PlanCoversDemand | main.py:19 | the plan for 0..i-1 orders exactly their demand, and each lot is the demand of a run of consecutive periods |
| Within.ClosedForm | main.py:22 | every split costs the same, so best[i] = s·i + u·(total demand of 0..i-1) and the plan kept for i ≥ 1 is one lot in period 0 |

## Left out

- The Tk GUI, Excel loading and the `__main__` demonstration blocks (`app.py` from line 69 on, `wagner_whitin.py:105-116`, `main.py:32-47`) are I/O and are not part of this model.
- The `isinstance` checks of the guard (`wagner_whitin.py:78-80`) are implied by Dafny's types.
- Numbers are integers. The source accepts floats, and floating-point rounding is not modelled.
- CumSum.CumSumList.SumBetween: for a non-empty range it requires a non-empty table, `0 <= j` and `i <= |elements|`. Python's wrap-around indexing for negative positions is not modelled because no caller reaches it.
- Solver.ForwardPass and Solver.Solve require series of one length and no negative demand. The guard (`wagner_whitin.py:24`) and the entry points establish this before calling them. The redundant asserts at `wagner_whitin.py:26` and `:46` add nothing after the guard.
- The source's loop `while True … break` at `wagner_whitin.py:68-73` is written as `while t >= 0`. They are equivalent because t becomes j - 1, which is -1 exactly when j is 0.
- App.WagnerWhitin: app.py's `assert demands[t] > 0` (`app.py:28`) fails when the forward loop reaches the first negative demand. The model reports the failure before running the passes. The outcome is the same: an error and no result.
- Exceptions (`AssertionError`, `IndexError`) are modelled as `Failure` values. Their messages are not modelled.
- Horizon.PlanningHorizon, Horizon.PrunedIffFull, Horizon.CandidateGap, Horizon.CoverAboveBound, Horizon.FullIsPruned, Optimality.TailCharge, Optimality.LowerBound, Optimality.SolvedByIffFull and Optimality.SolverIsOptimal require non-negative holding costs, which the guard does not demand. Most of them also require non-negative demands or order costs. Without these conditions the statements are false: on the input of "## Findings", the unrestricted table is not a pruned one, and the schedule [2, 0, 0] is charged below F(2).
- Optimality.SolverIsOptimal compares the plan with every schedule `evaluate` accepts, including schedules with negative order quantities. Schedules built from contiguous covering intervals are among these, so no separate enumeration of them is modelled.
- Within.WagnerWithin: `float('inf')` is modelled by the `Cost` datatype, and the Python int/float comparison by `Below`.

## Findings

| source | as written | input that shows it | evidently intended | confidence | as-written member | corrected member |
|---|---|---|---|---|---|---|
| wagner_whitin.py:82 | the guard admits a holding series of length len(demands) - 1, but the scan of the last period (which always has positive demand) reads `h[T - 1]` at line 51 | demands [5], order costs [10], holding costs [] pass the guard, and the scan of period 0 reads h[0], which raises IndexError | a series one entry short is solved; its missing last entry is never needed, because it multiplies an empty demand range | not executed | Solver.WagnerWhitin | Solver.WagnerWhitinCorrected |
| wagner_whitin.py:77-85 | the guard checks the signs of demands and order costs but not of holding costs; with a negative holding cost, a tie can lift t\*\* (line 58) past the cheapest order period | demands [0, 1, 1], order costs [1, 0, 0], holding costs [-1, 0, 0]: a tie at period 1 lifts t\*\* to 1, the solver returns cost 0 with solution [0, 1, 1], and `evaluate` scores [2, 0, 0] at -1 | negative holding costs are rejected like negative order costs; the solver's plan is then the cheapest schedule `evaluate` accepts | not executed | Optimality.NegativeHoldingMissesCheaperPlan | Optimality.WagnerWhitinChecked |
