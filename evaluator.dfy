/**
 * The simulator `evaluate` of wagner_whitin.py: it scores any order schedule
 * by walking the periods, paying the order cost in each period that orders
 * and the holding cost on the stock carried out of each period.
 */
module Evaluator {
  import opened Outcomes
  import opened CumSum
  import opened Recurrence
  import opened Reconstruction
  import opened Solver

  /** Which check of the simulator failed. */
  datatype EvalError =
    | SumMismatch      // the schedule does not order the total demand
    | SeriesLengthMismatch   // the four series are not all of one length
    | NegativeStock    // some period ends with a stock-out

  /** The stock left after the first k periods: ordered so far minus demanded so far. */
  function StockAfter(d: seq<int>, sol: seq<int>, k: int): int
    requires 0 <= k <= |d| && k <= |sol|
  {
    Total(sol[..k]) - Total(d[..k])
  }

  /**
   * The closed form agrees with the running stock of the simulator: nothing
   * before the first period, and each period adds its order and removes its
   * demand.
   */
  lemma StockStep(d: seq<int>, sol: seq<int>, k: int)
    requires 0 <= k < |d| && k < |sol|
    ensures StockAfter(d, sol, 0) == 0
    ensures StockAfter(d, sol, k + 1) == StockAfter(d, sol, k) + sol[k] - d[k]
  {
    assert sol[..k + 1][..k] == sol[..k] && d[..k + 1][..k] == d[..k];
  }

  /** What period p costs: its order cost if it orders, and holding on the stock it passes on. */
  function PeriodCharge(d: seq<int>, o: seq<int>, h: seq<int>, sol: seq<int>, p: int): int
    requires SameLength(d, o, h)
    requires 0 <= p < |d| && p < |sol|
  {
    (if sol[p] > 0 then o[p] else 0) + StockAfter(d, sol, p + 1) * h[p]
  }

  /** The charges of periods lo..hi-1. */
  function ChargeRange(d: seq<int>, o: seq<int>, h: seq<int>, sol: seq<int>, lo: int, hi: int): int
    requires SameLength(d, o, h)
    requires 0 <= lo <= hi <= |d| && hi <= |sol|
    decreases hi - lo
  {
    if lo == hi then 0 else PeriodCharge(d, o, h, sol, lo) + ChargeRange(d, o, h, sol, lo + 1, hi)
  }

  /**
   * What `evaluate` returns: the sum check first, then the length check, then
   * the stock check, and otherwise the charges of all periods.
   */
  function EvaluateSpec(d: seq<int>, o: seq<int>, h: seq<int>, sol: seq<int>): (r: Result<int, EvalError>)
    ensures r.Success? <==>
      && Total(d) == Total(sol)
      && |d| == |sol| == |o| == |h|
      && NeverShort(d, sol)
    ensures r == Failure(SumMismatch) <==> Total(d) != Total(sol)
    ensures r == Failure(SeriesLengthMismatch) <==> Total(d) == Total(sol) && !(|d| == |sol| == |o| == |h|)
  {
    if Total(d) != Total(sol) then Failure(SumMismatch)
    else if !(|d| == |sol| == |o| == |h|) then Failure(SeriesLengthMismatch)
    else if !NeverShort(d, sol) then Failure(NegativeStock)
    else Success(ChargeRange(d, o, h, sol, 0, |d|))
  }

  /** `evaluate`: one pass that tracks the stock and the running cost. */
  method Evaluate(d: seq<int>, o: seq<int>, h: seq<int>, sol: seq<int>) returns (r: Result<int, EvalError>)
    ensures r == EvaluateSpec(d, o, h, sol)
  {
    if Total(d) != Total(sol) {
      return Failure(SumMismatch);
    }
    if !(|d| == |sol| == |o| == |h|) {
      return Failure(SeriesLengthMismatch);
    }
    var n := |d|;
    var cost := 0;
    var inStock := 0;
    for t := 0 to n
      invariant inStock == StockAfter(d, sol, t)
      invariant cost + ChargeRange(d, o, h, sol, t, n) == ChargeRange(d, o, h, sol, 0, n)
      invariant forall k | 0 <= k <= t :: Total(sol[..k]) >= Total(d[..k])
    {
      StockStep(d, sol, t);
      inStock := inStock + sol[t] - d[t];
      cost := cost + if sol[t] > 0 then o[t] else 0;
      cost := cost + inStock * h[t];
      if inStock < 0 {
        assert Total(sol[..t + 1]) < Total(d[..t + 1]);
        return Failure(NegativeStock);
      }
    }
    return Success(cost);
  }

  /** The charges of lo..hi-1 read the schedule only up to hi. */
  lemma {:induction false} ChargeRangePrefix(d: seq<int>, o: seq<int>, h: seq<int>, s1: seq<int>, s2: seq<int>, lo: int, hi: int)
    requires SameLength(d, o, h)
    requires 0 <= lo <= hi <= |d| && hi <= |s1| && hi <= |s2|
    requires s1[..hi] == s2[..hi]
    ensures ChargeRange(d, o, h, s1, lo, hi) == ChargeRange(d, o, h, s2, lo, hi)
    decreases hi - lo
  {
    if lo < hi {
      ChargeRangePrefix(d, o, h, s1, s2, lo + 1, hi);
      assert s1[lo] == s1[..hi][lo] && s2[lo] == s2[..hi][lo];
      assert s1[..lo + 1] == s1[..hi][..lo + 1] && s2[..lo + 1] == s2[..hi][..lo + 1];
    }
  }

  lemma {:induction false} ChargeRangeSplit(d: seq<int>, o: seq<int>, h: seq<int>, sol: seq<int>, lo: int, mid: int, hi: int)
    requires SameLength(d, o, h)
    requires 0 <= lo <= mid <= hi <= |d| && hi <= |sol|
    ensures ChargeRange(d, o, h, sol, lo, hi) == ChargeRange(d, o, h, sol, lo, mid) + ChargeRange(d, o, h, sol, mid, hi)
    decreases mid - lo
  {
    if lo < mid {
      ChargeRangeSplit(d, o, h, sol, lo + 1, mid, hi);
    }
  }

  /**
   * Periods j..t of `s` are served by one order at j of their whole demand:
   * j orders it, j+1..t order nothing, and the schedule up to any period of
   * the interval has ordered the demand of 0..t.
   */
  ghost predicate OneOrder(d: seq<int>, s: seq<int>, j: int, t: int)
  {
    && 0 <= j <= t < |d| && t < |s|
    && (forall p | j <= p <= t :: s[p] == if p == j then Total(d[j..t + 1]) else 0)
    && (forall k | j < k <= t + 1 :: Total(s[..k]) == Total(d[..j]) + Total(d[j..t + 1]))
  }

  /** Inside such an interval, period p passes on the demand of p+1..t. */
  lemma IntervalStock(d: seq<int>, s: seq<int>, j: int, t: int, p: int)
    requires OneOrder(d, s, j, t) && j <= p <= t
    ensures StockAfter(d, s, p + 1) == Total(d[p + 1..t + 1])
  {
    assert Total(s[..p + 1]) == Total(d[..j]) + Total(d[j..t + 1]);
    TotalPrefixSplit(d, j, t + 1);
    TotalPrefixSplit(d, p + 1, t + 1);
  }

  /**
   * The charges of periods p..t inside an interval j..t served by one order:
   * the order cost if p is j and the order is positive, plus S_t(p).
   */
  lemma {:induction false} IntervalCharge(d: seq<int>, o: seq<int>, h: seq<int>, s: seq<int>, j: int, t: int, p: int)
    requires SameLength(d, o, h)
    requires OneOrder(d, s, j, t) && j <= p <= t
    ensures ChargeRange(d, o, h, s, p, t + 1)
         == (if p == j && Total(d[j..t + 1]) > 0 then o[j] else 0) + HoldingCost(d, h, p, t)
    decreases t - p
  {
    if p < t {
      IntervalCharge(d, o, h, s, j, t, p + 1);
    } else {
      assert d[p + 1..t + 1] == [];
    }
    IntervalStock(d, s, j, t, p);
    assert s[p] == if p == j then Total(d[j..t + 1]) else 0;
  }

  /**
   * Adding the order for j..t to a schedule `front` of 0..j-1 adds the
   * charges of the interval: its order cost if it orders, plus S_t(j).
   */
  lemma AppendIntervalCharge(d: seq<int>, o: seq<int>, h: seq<int>, front: seq<int>, s: seq<int>, j: int, t: int)
    requires SameLength(d, o, h)
    requires 0 <= j <= t < |d| && |front| == j
    requires Total(front) == Total(d[..j])
    requires s == front + [Total(d[j..t + 1])] + Zeros(t - j)
    ensures ChargeRange(d, o, h, s, 0, t + 1)
         == ChargeRange(d, o, h, front, 0, j) + (if Total(d[j..t + 1]) > 0 then o[j] else 0) + HoldingCost(d, h, j, t)
  {
    ChargeRangeSplit(d, o, h, s, 0, j, t + 1);
    OrderShape(front, Total(d[j..t + 1]), t - j, s);
    assert s[..j] == front[..j];
    ChargeRangePrefix(d, o, h, s, front, 0, j);
    IntervalCharge(d, o, h, s, j, t, j);
  }

  /**
   * One interval more: if the schedule before j costs F(j - 1), the schedule
   * that adds the order for j..t = cover[t] costs F(t).
   */
  lemma ScheduleCostStep(d: seq<int>, o: seq<int>, h: seq<int>, F: seq<int>, cover: seq<int>, t: nat,
                         front: seq<int>, s: seq<int>)
    requires CostTable(d, o, h, F, cover)
    requires t < |cover|
    requires forall p | 0 <= p < |d| :: d[p] >= 0
    requires 0 <= cover[t] <= t && |front| == cover[t]
    requires Total(front) == Total(d[..cover[t]])
    requires ChargeRange(d, o, h, front, 0, cover[t]) == F[cover[t]]
    requires s == front + [Total(d[cover[t]..t + 1])] + Zeros(t - cover[t])
    ensures ChargeRange(d, o, h, s, 0, t + 1) == F[t + 1]
  {
    var j := cover[t];
    AppendIntervalCharge(d, o, h, front, s, j, t);
    CostTableStep(d, o, h, F, cover, t);
    DemandOfRunCoversLast(d, j, t);
    if d[t] == 0 {
      assert d[t + 1..t + 1] == [];
      assert HoldingCost(d, h, j, t) == 0;
    }
  }

  /** The schedule for 0..t costs F(t) under the simulator. */
  lemma {:induction false} ScheduleCost(d: seq<int>, o: seq<int>, h: seq<int>, F: seq<int>, cover: seq<int>, t: int)
    requires CostTable(d, o, h, F, cover) && CoversBackward(cover)
    requires -1 <= t < |cover|
    requires forall p | 0 <= p < |d| :: d[p] >= 0
    ensures ChargeRange(d, o, h, Schedule(d, cover, t), 0, t + 1) == F[t + 1]
    decreases t + 1
  {
    if t >= 0 {
      var j := cover[t];
      ScheduleCost(d, o, h, F, cover, j - 1);
      ScheduleTotal(d, cover, j - 1);
      ScheduleCostStep(d, o, h, F, cover, t, Schedule(d, cover, j - 1), Schedule(d, cover, t));
    }
  }

  /** With no negative demand, a run of periods ending at t demands at least d[t]. */
  lemma DemandOfRunCoversLast(d: seq<int>, j: int, t: int)
    requires 0 <= j <= t < |d|
    requires forall p | 0 <= p < |d| :: d[p] >= 0
    ensures Total(d[j..t + 1]) >= d[t]
    ensures j == t ==> Total(d[j..t + 1]) == d[t]
  {
    TotalSplit(d, j, t, t + 1);
    TotalGrows(d, j, j, t);
    assert d[t..t + 1] == [d[t]];
  }

  /**
   * The simulator scores the solver's own schedule at exactly the solver's
   * cost, F(T - 1).
   */
  lemma SolverEvaluatorAgree(d: seq<int>, o: seq<int>, h: seq<int>, plan: Plan)
    requires SolvedBy(d, o, h, plan)
    requires forall p | 0 <= p < |d| :: d[p] >= 0
    ensures EvaluateSpec(d, o, h, plan.solution) == Success(plan.cost)
  {
    var F: seq<int>, cover: seq<int> :| SolvedWith(d, o, h, F, cover, plan);
    ScheduleShape(d, cover, plan.solution);
    ScheduleCost(d, o, h, F, cover, |d| - 1);
  }
}
