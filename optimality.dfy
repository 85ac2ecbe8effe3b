/**
 * The Wagner-Whitin optimality theorem for the solver: with no negative
 * demand, order cost or holding cost, no schedule that the simulator
 * `evaluate` accepts costs less than the plan the solver returns.
 *
 * The argument runs over the last period j <= t in which a schedule orders:
 * the periods j..t then carry at least the demand still to come, so they cost
 * at least o[j] + S_t(j), the periods before j cost at least F(j - 1), and
 * the sum is a candidate of period t, which F(t) does not exceed.
 */
module Optimality {
  import opened Outcomes
  import opened CumSum
  import opened Recurrence
  import opened Reconstruction
  import opened Solver
  import opened Evaluator
  import opened Horizon

  /** `plan` comes from the table and cover map of the unrestricted recursion. */
  ghost predicate FullSolvedWith(d: seq<int>, o: seq<int>, h: seq<int>, F: seq<int>, cover: seq<int>, plan: Plan)
  {
    && |cover| == |d| && CoversBackward(cover) && FullTable(d, o, h, F, cover)
    && plan.cost == F[|d|] && plan.solution == Schedule(d, cover, |d| - 1)
  }

  /**
   * With no negative demand, order cost or holding cost, the solver's plan is
   * exactly the plan of the unrestricted Wagner-Whitin recursion, which scans
   * every order period 0..t instead of t**..t.
   */
  lemma SolvedByIffFull(d: seq<int>, o: seq<int>, h: seq<int>, plan: Plan)
    requires NonNegative(d) && NonNegative(o) && NonNegative(h)
    ensures SolvedBy(d, o, h, plan) <==> exists F, cover :: FullSolvedWith(d, o, h, F, cover, plan)
  {
    if SolvedBy(d, o, h, plan) {
      var F: seq<int>, cover: seq<int> :| SolvedWith(d, o, h, F, cover, plan);
      PrunedIffFull(d, o, h, F, cover);
      assert FullSolvedWith(d, o, h, F, cover, plan);
    }
    if exists F, cover :: FullSolvedWith(d, o, h, F, cover, plan) {
      var F: seq<int>, cover: seq<int> :| FullSolvedWith(d, o, h, F, cover, plan);
      PrunedIffFull(d, o, h, F, cover);
      assert SolvedWith(d, o, h, F, cover, plan);
    }
  }

  /** The last period up to t in which `x` orders a positive amount, or -1. */
  function LastOrder(x: seq<int>, t: int): (j: int)
    requires t < |x|
    ensures -1 <= j <= t || (t < -1 && j == -1)
    ensures j >= 0 ==> x[j] > 0
    ensures forall m | j < m <= t :: x[m] <= 0
    decreases t + 1
  {
    if t < 0 then -1 else if x[t] > 0 then t else LastOrder(x, t - 1)
  }

  /** A range with no positive entry sums to at most zero. */
  lemma {:induction false} NonPositiveRange(s: seq<int>, i: int, j: int)
    requires 0 <= i <= j <= |s|
    requires forall m | i <= m < j :: s[m] <= 0
    ensures Total(s[i..j]) <= 0
    decreases j - i
  {
    if i < j {
      NonPositiveRange(s, i, j - 1);
      assert s[i..j][..j - 1 - i] == s[i..j - 1];
    }
  }

  /**
   * With no order in k+1..t, the stock carried out of period k is at least
   * the stock carried out of t plus the demand of k+1..t.
   */
  lemma StockCarried(d: seq<int>, x: seq<int>, k: int, t: int)
    requires 0 <= k <= t < |d| && t < |x|
    requires forall m | k < m <= t :: x[m] <= 0
    ensures StockAfter(d, x, k + 1) >= StockAfter(d, x, t + 1) + Total(d[k + 1..t + 1])
  {
    TotalPrefixSplit(x, k + 1, t + 1);
    TotalPrefixSplit(d, k + 1, t + 1);
    NonPositiveRange(x, k + 1, t + 1);
  }

  /**
   * The periods k..t after the last order j cost at least the holding cost
   * S_t(k), and the order cost o[j] on top when k is j.
   */
  lemma {:induction false} TailCharge(d: seq<int>, o: seq<int>, h: seq<int>, x: seq<int>, j: int, k: int, t: int)
    requires SameLength(d, o, h) && NonNegative(h)
    requires 0 <= j <= k <= t < |d| && t < |x|
    requires x[j] > 0 && forall m | j < m <= t :: x[m] <= 0
    requires StockAfter(d, x, t + 1) >= 0
    ensures ChargeRange(d, o, h, x, k, t + 1) >= (if k == j then o[j] else 0) + HoldingCost(d, h, k, t)
    decreases t - k
  {
    if k < t {
      TailCharge(d, o, h, x, j, k + 1, t);
    } else {
      assert d[k + 1..t + 1] == [];
    }
    StockCarried(d, x, k, t);
    MulMonotone(h[k], Total(d[k + 1..t + 1]), StockAfter(d, x, k + 1));
  }

  /** With no shortage, the charges of any periods are not negative. */
  lemma {:induction false} ChargesNonNegative(d: seq<int>, o: seq<int>, h: seq<int>, x: seq<int>, lo: int, hi: int)
    requires SameLength(d, o, h) && NonNegative(o) && NonNegative(h)
    requires 0 <= lo <= hi <= |d| && hi <= |x|
    requires forall k | lo < k <= hi :: StockAfter(d, x, k) >= 0
    ensures ChargeRange(d, o, h, x, lo, hi) >= 0
    decreases hi - lo
  {
    if lo < hi {
      ChargesNonNegative(d, o, h, x, lo + 1, hi);
      MulMonotone(h[lo], 0, StockAfter(d, x, lo + 1));
    }
  }

  /** With no demand in 0..t, the cost table stays at its base value 0. */
  lemma {:induction false} NoDemandNoCost(d: seq<int>, o: seq<int>, h: seq<int>, F: seq<int>, cover: seq<int>, t: int)
    requires CostTable(d, o, h, F, cover)
    requires -1 <= t < |cover|
    requires forall k | 0 <= k <= t :: d[k] == 0
    ensures F[t + 1] == 0
    decreases t + 1
  {
    if t >= 0 {
      NoDemandNoCost(d, o, h, F, cover, t - 1);
      CostTableStep(d, o, h, F, cover, t);
    }
  }

  /** A schedule that never orders in 0..t yet is never short there meets no demand there. */
  lemma NoOrderNoDemand(d: seq<int>, x: seq<int>, t: int)
    requires NonNegative(d) && 0 <= t < |d| && t < |x|
    requires forall m | 0 <= m <= t :: x[m] <= 0
    requires StockAfter(d, x, t + 1) >= 0
    ensures forall k | 0 <= k <= t :: d[k] == 0
  {
    NonPositiveRange(x, 0, t + 1);
    assert x[..t + 1] == x[0..t + 1];
    forall k | 0 <= k <= t ensures d[k] == 0 {
      TotalPrefixSplit(d, k, t + 1);
      TotalSplit(d, k, k + 1, t + 1);
      TotalGrows(d, 0, 0, k);
      TotalGrows(d, k + 1, k + 1, t + 1);
      assert d[k..k + 1] == [d[k]];
      assert d[..k] == d[0..k];
    }
  }

  /**
   * Any schedule that is never short in 0..t costs at least F(t) over those
   * periods.
   */
  lemma {:induction false} LowerBound(d: seq<int>, o: seq<int>, h: seq<int>, F: seq<int>, cover: seq<int>,
                                      x: seq<int>, t: int)
    requires CostTable(d, o, h, F, cover)
    requires NonNegative(d) && NonNegative(o) && NonNegative(h)
    requires -1 <= t < |cover| && |x| == |d|
    requires forall k | 0 < k <= t + 1 :: StockAfter(d, x, k) >= 0
    ensures ChargeRange(d, o, h, x, 0, t + 1) >= F[t + 1]
    decreases t + 1
  {
    if t >= 0 {
      var j := LastOrder(x, t);
      if j < 0 {
        NoOrderBound(d, o, h, F, cover, x, t);
      } else {
        LowerBound(d, o, h, F, cover, x, j - 1);
        TailCharge(d, o, h, x, j, j, t);
        LastOrderBound(d, o, h, F, cover, x, j, t);
      }
    }
  }

  /** A schedule that orders nothing in 0..t and is never short there costs at least F(t), which is 0. */
  lemma NoOrderBound(d: seq<int>, o: seq<int>, h: seq<int>, F: seq<int>, cover: seq<int>, x: seq<int>, t: int)
    requires CostTable(d, o, h, F, cover)
    requires NonNegative(d) && NonNegative(o) && NonNegative(h)
    requires 0 <= t < |cover| && |x| == |d|
    requires forall m | 0 <= m <= t :: x[m] <= 0
    requires forall k | 0 < k <= t + 1 :: StockAfter(d, x, k) >= 0
    ensures ChargeRange(d, o, h, x, 0, t + 1) >= F[t + 1]
  {
    ChargesNonNegative(d, o, h, x, 0, t + 1);
    NoOrderNoDemand(d, x, t);
    NoDemandNoCost(d, o, h, F, cover, t);
  }

  /**
   * The step of the lower bound: if periods 0..j-1 cost at least F(j - 1) and
   * periods j..t at least o[j] + S_t(j), then periods 0..t cost at least the
   * candidate of j, which is at least F(t).
   */
  lemma LastOrderBound(d: seq<int>, o: seq<int>, h: seq<int>, F: seq<int>, cover: seq<int>, x: seq<int>, j: int, t: int)
    requires CostTable(d, o, h, F, cover)
    requires NonNegative(d) && NonNegative(o) && NonNegative(h)
    requires 0 <= j <= t < |cover| && |x| == |d|
    requires ChargeRange(d, o, h, x, 0, j) >= F[j]
    requires ChargeRange(d, o, h, x, j, t + 1) >= o[j] + HoldingCost(d, h, j, t)
    ensures ChargeRange(d, o, h, x, 0, t + 1) >= F[t + 1]
  {
    ChargeRangeSplit(d, o, h, x, 0, j, t + 1);
    PlanningHorizon(d, o, h, F, cover, t);
    assert F[t + 1] <= Candidate(d, o, h, F, t, j);
  }

  /**
   * The solver is optimal: every schedule the simulator accepts costs at
   * least the solver's cost.  With `SolverEvaluatorAgree` the solver's own
   * schedule attains it.
   */
  lemma SolverIsOptimal(d: seq<int>, o: seq<int>, h: seq<int>, plan: Plan, x: seq<int>, c: int)
    requires NonNegative(d) && NonNegative(o) && NonNegative(h)
    requires SolvedBy(d, o, h, plan)
    requires EvaluateSpec(d, o, h, x) == Success(c)
    ensures plan.cost <= c
  {
    var F: seq<int>, cover: seq<int> :| SolvedWith(d, o, h, F, cover, plan);
    forall k | 0 < k <= |d| ensures StockAfter(d, x, k) >= 0 {
      assert Total(x[..k]) >= Total(d[..k]);
    }
    LowerBound(d, o, h, F, cover, x, |d| - 1);
  }

  /**
   * The guard does not reject negative holding costs, and with one the bound
   * t** can prune the cheapest order period: here a tie at period 1 lifts t**
   * to 1, so ordering everything at period 0 is never scanned for period 2,
   * although the simulator scores that schedule below the solver's cost.
   */
  lemma NegativeHoldingMissesCheaperPlan()
    ensures ValidateInputs([0, 1, 1], [1, 0, 0], [-1, 0, 0]) == Pass
    ensures SolvedBy([0, 1, 1], [1, 0, 0], [-1, 0, 0], Plan(0, [0, 1, 1]))
    ensures EvaluateSpec([0, 1, 1], [1, 0, 0], [-1, 0, 0], [2, 0, 0]) == Success(-1)
  {
    NegativeHoldingPassesGuard();
    NegativeHoldingPlan();
    NegativeHoldingScore();
  }

  /** The example's series pass the guard: it never looks at the sign of a holding cost. */
  lemma NegativeHoldingPassesGuard()
    ensures ValidateInputs([0, 1, 1], [1, 0, 0], [-1, 0, 0]) == Pass
  {
  }

  /** Period 0 of the example has no demand: F(0) = 0 and it covers itself. */
  lemma NegativeHoldingFirstPeriod()
    ensures CostTable([0, 1, 1], [1, 0, 0], [-1, 0, 0], [0, 0], [0])
  {
    ExtendTable([0, 1, 1], [1, 0, 0], [-1, 0, 0], [0], [], 0, 0);
    assert [0] + [0] == [0, 0] && [] + [0] == [0];
  }

  /** The first two periods of the example: the tie at period 1 goes to period 1 itself. */
  lemma NegativeHoldingTablePrefix()
    ensures CostTable([0, 1, 1], [1, 0, 0], [-1, 0, 0], [0, 0, 0], [0, 1])
  {
    var d, o, h := [0, 1, 1], [1, 0, 0], [-1, 0, 0];
    NegativeHoldingFirstPeriod();
    assert d[2..2] == [] && d[1..2] == [1];
    assert HoldingCost(d, h, 1, 1) == 0;
    assert HoldingCost(d, h, 0, 1) == h[0] * Total([1]) + HoldingCost(d, h, 1, 1) == -1;
    ExtendTable(d, o, h, [0, 0], [0], 0, 1);
    assert [0, 0] + [0] == [0, 0, 0] && [0] + [1] == [0, 1];
  }

  /** The recursion's table for the example: every F is 0 and every period covers itself. */
  lemma NegativeHoldingTable()
    ensures CostTable([0, 1, 1], [1, 0, 0], [-1, 0, 0], [0, 0, 0, 0], [0, 1, 2])
  {
    var d, o, h := [0, 1, 1], [1, 0, 0], [-1, 0, 0];
    NegativeHoldingTablePrefix();
    assert d[3..3] == [] && d[2..3] == [1];
    assert HoldingCost(d, h, 1, 2) == 0;
    assert Bound(d, [0, 1]) == 1 by {
      assert [0, 1][..1] == [0] && [0][..0] == [];
    }
    ExtendTable(d, o, h, [0, 0, 0], [0, 1], 0, 2);
    assert [0, 0, 0] + [0] == [0, 0, 0, 0] && [0, 1] + [2] == [0, 1, 2];
  }

  /** The example's plan: cost 0, one order in each of periods 1 and 2. */
  lemma NegativeHoldingPlan()
    ensures SolvedBy([0, 1, 1], [1, 0, 0], [-1, 0, 0], Plan(0, [0, 1, 1]))
  {
    var d, cover := [0, 1, 1], [0, 1, 2];
    NegativeHoldingTable();
    assert d[0..1] == [0] && d[1..2] == [1] && d[2..3] == [1];
    assert Schedule(d, cover, 0) == [0];
    assert Schedule(d, cover, 1) == [0, 1];
    assert Schedule(d, cover, 2) == [0, 1, 1];
    assert SolvedWith(d, [1, 0, 0], [-1, 0, 0], [0, 0, 0, 0], cover, Plan(0, [0, 1, 1]));
  }

  /** Ordering both units in period 0 scores -1 in the simulator. */
  lemma NegativeHoldingScore()
    ensures EvaluateSpec([0, 1, 1], [1, 0, 0], [-1, 0, 0], [2, 0, 0]) == Success(-1)
  {
    NegativeHoldingStock();
    NegativeHoldingCharges();
  }

  /** Ordering both units in period 0 never leaves the stock short. */
  lemma NegativeHoldingStock()
    ensures NeverShort([0, 1, 1], [2, 0, 0])
  {
    var d, x := [0, 1, 1], [2, 0, 0];
    assert x[..1] == [2] && d[..1] == [0] && x[..2] == [2, 0] && d[..2] == [0, 1];
    assert x[..3] == x && d[..3] == d;
  }

  /** Order cost 1 in period 0, then -1 for each of the two units carried out of it. */
  lemma NegativeHoldingCharges()
    ensures ChargeRange([0, 1, 1], [1, 0, 0], [-1, 0, 0], [2, 0, 0], 0, 3) == -1
  {
    var d, x := [0, 1, 1], [2, 0, 0];
    assert x[..1] == [2] && d[..1] == [0] && x[..2] == [2, 0] && d[..2] == [0, 1];
    assert x[..3] == x && d[..3] == d;
  }

  /**
   * `wagner_whitin` with the holding-cost check its guard leaves out: once
   * negative holding costs are rejected, every accepted input is solved and
   * no schedule the simulator accepts costs less than the returned plan.
   */
  method WagnerWhitinChecked(d: seq<int>, o: seq<int>, h: seq<int>) returns (r: Result<Plan, SolveError>)
    ensures ValidateInputs(d, o, h).Fail? ==> r == Failure(InvalidInput(ValidateInputs(d, o, h).error))
    ensures r == Failure(NegativeHoldingCost) <==>
      ValidateInputs(d, o, h).Pass? && exists i | 0 <= i < |h| :: h[i] < 0
    ensures ValidateInputs(d, o, h).Pass? && NonNegative(h) ==>
      r.Success? && SolvedBy(d, o, PadHolding(h, |d|), r.value)
    ensures r.Success? ==>
      forall x | EvaluateSpec(d, o, PadHolding(h, |d|), x).Success? ::
        r.value.cost <= EvaluateSpec(d, o, PadHolding(h, |d|), x).value
  {
    var check := ValidateInputs(d, o, h);
    if check.Fail? {
      return Failure(InvalidInput(check.error));
    }
    if exists i | 0 <= i < |h| :: h[i] < 0 {
      return Failure(NegativeHoldingCost);
    }
    r := WagnerWhitinCorrected(d, o, h);
    var p := PadHolding(h, |d|);
    assert NonNegative(p) by {
      forall i | 0 <= i < |p| ensures p[i] >= 0 {
        if i < |h| {
          assert p[i] == p[..|h|][i];
        }
      }
    }
    forall x | EvaluateSpec(d, o, p, x).Success?
      ensures r.value.cost <= EvaluateSpec(d, o, p, x).value
    {
      SolverIsOptimal(d, o, p, r.value, x, EvaluateSpec(d, o, p, x).value);
    }
  }

  /**
   * A tie: for demands 5, 0, 5 with order cost 10 and holding cost 1, ordering
   * once at period 0 and ordering at periods 0 and 2 both cost 20; the
   * recursion keeps the later order period for the last interval.
   */
  lemma TieTable()
    ensures CostTable([5, 0, 5], [10, 10, 10], [1, 1, 1], [0, 10, 10, 20], [0, 1, 2])
  {
    var d, o, h := [5, 0, 5], [10, 10, 10], [1, 1, 1];
    TieTablePrefix();
    assert d[1..3] == [0, 5] && d[2..3] == [5] && d[3..3] == [];
    assert HoldingCost(d, h, 2, 2) == 0;
    assert HoldingCost(d, h, 1, 2) == 5;
    assert HoldingCost(d, h, 0, 2) == 10;
    ExtendTable(d, o, h, [0, 10, 10], [0, 1], 20, 2);
    assert [0, 10, 10] + [20] == [0, 10, 10, 20] && [0, 1] + [2] == [0, 1, 2];
  }

  /** The first two periods of the tie example: one order at 0, then a zero-demand period. */
  lemma TieTablePrefix()
    ensures CostTable([5, 0, 5], [10, 10, 10], [1, 1, 1], [0, 10, 10], [0, 1])
  {
    var d, o, h := [5, 0, 5], [10, 10, 10], [1, 1, 1];
    assert d[1..1] == [];
    ExtendTable(d, o, h, [0], [], 10, 0);
    assert [0] + [10] == [0, 10] && [] + [0] == [0];
    ExtendTable(d, o, h, [0, 10], [0], 10, 1);
    assert [0, 10] + [10] == [0, 10, 10] && [0] + [1] == [0, 1];
  }

  /** The plan of the tie example: order 5 at period 0 and 5 at period 2, for 20. */
  lemma TieGoesToLatestOrder()
    ensures SolvedBy([5, 0, 5], [10, 10, 10], [1, 1, 1], Plan(20, [5, 0, 5]))
    ensures EvaluateSpec([5, 0, 5], [10, 10, 10], [1, 1, 1], [5, 0, 5]) == Success(20)
    ensures EvaluateSpec([5, 0, 5], [10, 10, 10], [1, 1, 1], [10, 0, 0]) == Success(20)
  {
    TieGoesToLatestOrderPlan();
    TieScoreTwoOrders();
    TieScoreOneOrder();
  }

  /** The plan the recursion produces for the tie example. */
  lemma TieGoesToLatestOrderPlan()
    ensures SolvedBy([5, 0, 5], [10, 10, 10], [1, 1, 1], Plan(20, [5, 0, 5]))
  {
    var d, cover := [5, 0, 5], [0, 1, 2];
    TieTable();
    assert d[0..1] == [5] && d[1..2] == [0] && d[2..3] == [5];
    assert Schedule(d, cover, 0) == [5];
    assert Schedule(d, cover, 1) == [5, 0];
    assert Schedule(d, cover, 2) == [5, 0, 5];
    assert SolvedWith(d, [10, 10, 10], [1, 1, 1], [0, 10, 10, 20], cover, Plan(20, [5, 0, 5]));
  }

  /** Ordering 5 at periods 0 and 2 carries no stock: the simulator charges the two orders, 20. */
  lemma TieScoreTwoOrders()
    ensures EvaluateSpec([5, 0, 5], [10, 10, 10], [1, 1, 1], [5, 0, 5]) == Success(20)
  {
    var d := [5, 0, 5];
    assert d[..1] == [5] && d[..2] == [5, 0] && d[..3] == d;
    assert NeverShort(d, d);
    assert ChargeRange(d, [10, 10, 10], [1, 1, 1], d, 0, 3) == 20;
  }

  /** Ordering 10 at period 0 carries 5 units through periods 0 and 1: 10 + 5 + 5 = 20. */
  lemma TieScoreOneOrder()
    ensures EvaluateSpec([5, 0, 5], [10, 10, 10], [1, 1, 1], [10, 0, 0]) == Success(20)
  {
    TieOneOrderStock();
    TieOneOrderCharges();
  }

  /** Ordering 10 at period 0 never leaves the stock short. */
  lemma TieOneOrderStock()
    ensures NeverShort([5, 0, 5], [10, 0, 0])
  {
    var d, x := [5, 0, 5], [10, 0, 0];
    assert x[..1] == [10] && x[..2] == [10, 0] && x[..3] == x;
    assert d[..1] == [5] && d[..2] == [5, 0] && d[..3] == d;
  }

  /** The order cost 10, then holding on 5 units after period 0 and 5 after period 1. */
  lemma TieOneOrderCharges()
    ensures ChargeRange([5, 0, 5], [10, 10, 10], [1, 1, 1], [10, 0, 0], 0, 3) == 20
  {
    var d, x := [5, 0, 5], [10, 0, 0];
    assert x[..1] == [10] && x[..2] == [10, 0] && x[..3] == x;
    assert d[..1] == [5] && d[..2] == [5, 0] && d[..3] == d;
  }
}
