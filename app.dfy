/**
 * The scalar-cost solver `wagner_whitin(demands, constants)` of app.py: the
 * same forward and backward passes with one order cost and one holding cost
 * for every period, and with no input guard beyond the checks the passes
 * themselves make on the demands.
 */
module App {
  import opened Outcomes
  import opened CumSum
  import opened Recurrence
  import opened Reconstruction
  import opened Solver

  /** The two constants the application reads from its form. */
  datatype Constants = Constants(orderCost: int, holdingCost: int)

  /** How the scalar solver fails. */
  datatype AppError =
    | NoDemands              // the lookup of the final demand fails
    | FinalDemandNotPositive
    | DemandNegative         // the positivity check inside the forward loop fails

  /** The constant series x, x, ..., x of length n. */
  function Repeat(x: int, n: nat): (s: seq<int>)
    ensures |s| == n
    ensures forall i | 0 <= i < n :: s[i] == x
  {
    if n == 0 then [] else Repeat(x, n - 1) + [x]
  }

  /**
   * app.py's `wagner_whitin`: the general solver's passes run on the constant
   * series.  A negative demand stops the forward loop when it is reached,
   * before anything is returned, so it is reported before the passes run.
   */
  method WagnerWhitin(demands: seq<int>, constants: Constants) returns (r: Result<Plan, AppError>)
    ensures r == Failure(NoDemands) <==> demands == []
    ensures r == Failure(FinalDemandNotPositive) <==> demands != [] && demands[|demands| - 1] <= 0
    ensures r == Failure(DemandNegative) <==>
      && demands != [] && demands[|demands| - 1] > 0
      && exists i | 0 <= i < |demands| :: demands[i] < 0
    ensures r.Success? ==>
      SolvedBy(demands, Repeat(constants.orderCost, |demands|), Repeat(constants.holdingCost, |demands|), r.value)
  {
    if demands == [] {
      return Failure(NoDemands);
    }
    if demands[|demands| - 1] <= 0 {
      return Failure(FinalDemandNotPositive);
    }
    if exists i | 0 <= i < |demands| :: demands[i] < 0 {
      return Failure(DemandNegative);
    }
    var n := |demands|;
    var plan := Solve(demands, Repeat(constants.orderCost, n), Repeat(constants.holdingCost, n));
    return Success(plan);
  }

  /**
   * The scalar solver is the general one on constant series: those series
   * pass the general guard whenever the order cost is not negative, and the
   * plan both solvers promise is the same one.
   */
  lemma MatchesGeneralSolver(demands: seq<int>, constants: Constants, appPlan: Plan, plan: Plan)
    requires demands != [] && demands[|demands| - 1] > 0
    requires forall i | 0 <= i < |demands| :: demands[i] >= 0
    requires constants.orderCost >= 0
    requires SolvedBy(demands, Repeat(constants.orderCost, |demands|), Repeat(constants.holdingCost, |demands|), appPlan)
    ensures ValidateInputs(demands, Repeat(constants.orderCost, |demands|), Repeat(constants.holdingCost, |demands|)) == Pass
    ensures SolvedBy(demands, Repeat(constants.orderCost, |demands|), Repeat(constants.holdingCost, |demands|), plan)
            <==> plan == appPlan
  {
    var o, h := Repeat(constants.orderCost, |demands|), Repeat(constants.holdingCost, |demands|);
    ConstantSeriesPassGuard(demands, o, h);
    if SolvedBy(demands, o, h, plan) {
      SolvedByUnique(demands, o, h, plan, appPlan);
    }
  }

  /** Series of the demands' length with no negative demand or order cost pass the general guard. */
  lemma ConstantSeriesPassGuard(d: seq<int>, o: seq<int>, h: seq<int>)
    requires d != [] && d[|d| - 1] > 0 && |o| == |h| == |d|
    requires forall i | 0 <= i < |d| :: d[i] >= 0
    requires forall i | 0 <= i < |o| :: o[i] >= 0
    ensures ValidateInputs(d, o, h) == Pass
  {
  }
}
