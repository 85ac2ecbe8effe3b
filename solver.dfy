/**
 * The solver `wagner_whitin` of wagner_whitin.py: the forward pass that fills
 * the cost table and the cover map, the backward pass that turns the cover
 * map into order quantities, and the entry point that runs the input guard
 * first.
 */
module Solver {
  import opened Outcomes
  import opened CumSum
  import opened Recurrence
  import opened Reconstruction

  datatype SolveError =
    | InvalidInput(reason: InputError)
    | HoldingIndexOutOfRange   // the list lookup h[T - 1] fails on a short holding series
    | NegativeHoldingCost      // rejected only by the checked entry point of module Optimality

  /** The solver's result: the optimal cost F(T - 1) and the order quantities. */
  datatype Plan = Plan(cost: int, solution: seq<int>)

  /**
   * Position of the first minimum of `s`: `s.index(min(s))`.  Entry i of the
   * solver's candidate list belongs to order period t - i, so the first minimum
   * is the latest order period among the cheapest.
   */
  method IndexOfMin(s: seq<int>) returns (k: nat)
    requires |s| > 0
    ensures k < |s|
    ensures forall i | 0 <= i < |s| :: s[k] <= s[i]
    ensures forall i | 0 <= i < k :: s[k] < s[i]
  {
    k := 0;
    for i := 1 to |s|
      invariant k < i
      invariant forall m | 0 <= m < i :: s[k] <= s[m]
      invariant forall m | 0 <= m < k :: s[k] < s[m]
    {
      if s[i] < s[k] {
        k := i;
      }
    }
  }

  /**
   * The candidate scan for a positive-demand period t: S_t(j) is accumulated
   * for j = t, t - 1, ..., t** and `minArgs[t - j]` receives
   * o[j] + S_t(j) + F(j - 1); the first minimum of that list gives the cost
   * F(t) and the cover period j = t - argmin.  `prefix` is the table so far.
   */
  method ScanCandidates(d: seq<int>, o: seq<int>, h: seq<int>, dCumsum: CumSumList, costs: array<int>,
                        ghost prefix: seq<int>, t: nat, tStarStar: int) returns (cost: int, coverPeriod: int)
    requires SameLength(d, o, h)
    requires dCumsum.Valid() && dCumsum.elements == d
    requires t < |d| && t < costs.Length && prefix == costs[..t + 1]
    requires 0 <= tStarStar <= t
    ensures tStarStar <= coverPeriod <= t
    ensures cost == Candidate(d, o, h, prefix, t, coverPeriod)
    ensures forall j | tStarStar <= j <= t :: cost <= Candidate(d, o, h, prefix, t, j)
    ensures forall j | coverPeriod < j <= t :: cost < Candidate(d, o, h, prefix, t, j)
  {
    var sT := 0;
    var minArgs: seq<int> := [];
    var j := t;
    while j >= tStarStar
      invariant tStarStar - 1 <= j <= t
      invariant |minArgs| == t - j
      invariant forall i | 0 <= i < |minArgs| :: minArgs[i] == Candidate(d, o, h, prefix, t, t - i)
      invariant sT == if j == t then 0 else HoldingCost(d, h, j + 1, t)
    {
      sT := sT + h[j] * dCumsum.SumBetween(j + 1, t);
      assert j == t ==> d[j + 1..t + 1] == [];
      assert costs[j] == prefix[j];
      minArgs := minArgs + [o[j] + sT + costs[j]];
      j := j - 1;
    }
    var argmin := IndexOfMin(minArgs);
    cost, coverPeriod := minArgs[argmin], t - argmin;
    forall j' | tStarStar <= j' <= t
      ensures cost <= Candidate(d, o, h, prefix, t, j')
    {
      assert minArgs[t - j'] == Candidate(d, o, h, prefix, t, j');
    }
    forall j' | coverPeriod < j' <= t
      ensures cost < Candidate(d, o, h, prefix, t, j')
    {
      assert minArgs[t - j'] == Candidate(d, o, h, prefix, t, j');
    }
  }

  /**
   * One turn of the forward loop: period t receives its cost F(t) in
   * `costs[t + 1]` and its cover period in `cover[t]`, and t** moves on.
   */
  method FillPeriod(d: seq<int>, o: seq<int>, h: seq<int>, dCumsum: CumSumList,
                    costs: array<int>, cover: array<int>, t: nat, tStarStar: int) returns (newStarStar: int)
    requires SameLength(d, o, h)
    requires forall i | 0 <= i < |d| :: d[i] >= 0
    requires dCumsum.Valid() && dCumsum.elements == d
    requires costs != cover && costs != dCumsum.cumsums && cover != dCumsum.cumsums
    requires t < |d| && costs.Length == |d| + 1 && cover.Length == |d|
    requires tStarStar == Bound(d, cover[..t]) && tStarStar <= t
    requires CostTable(d, o, h, costs[..t + 1], cover[..t])
    modifies costs, cover
    ensures newStarStar == Bound(d, cover[..t + 1]) && newStarStar <= t + 1
    ensures CostTable(d, o, h, costs[..t + 2], cover[..t + 1])
    ensures costs[..t + 1] == old(costs[..t + 1]) && costs[t + 2..] == old(costs[t + 2..])
    ensures cover[..t] == old(cover[..t]) && cover[t + 1..] == old(cover[t + 1..])
  {
    ghost var prefix, covered := costs[..t + 1], cover[..t];
    var cost, coverPeriod;
    newStarStar := tStarStar;
    if d[t] == 0 {
      // no demand: F(t) = F(t - 1) and the period covers itself
      cost, coverPeriod := costs[t], t;
    } else {
      cost, coverPeriod := ScanCandidates(d, o, h, dCumsum, costs, prefix, t, tStarStar);
      newStarStar := Max(tStarStar, coverPeriod);
    }
    ExtendTable(d, o, h, prefix, covered, cost, coverPeriod);
    assert (covered + [coverPeriod])[..t] == covered;
    costs[t + 1] := cost;
    cover[t] := coverPeriod;
    assert costs[..t + 2] == prefix + [cost];
    assert cover[..t + 1] == covered + [coverPeriod];
  }

  /**
   * The forward recursion.  `costs` is the table F offset by one (costs[t + 1]
   * holds F(t), costs[0] the base case F(-1) = 0); `cover[t]` is the period
   * whose order covers t; `tStarStar` is the planning-horizon bound.
   */
  method ForwardPass(d: seq<int>, o: seq<int>, h: seq<int>) returns (F: seq<int>, coverBy: seq<int>)
    requires SameLength(d, o, h)
    requires forall i | 0 <= i < |d| :: d[i] >= 0
    ensures |F| == |d| + 1 && |coverBy| == |d|
    ensures CostTable(d, o, h, F, coverBy)
  {
    var T := |d|;
    var dCumsum := new CumSumList(d);
    var costs := new int[T + 1](_ => 0);
    var cover := new int[T](_ => 0);
    costs[0] := 0;
    var tStarStar := 0;
    for t := 0 to T
      modifies costs, cover
      invariant tStarStar == Bound(d, cover[..t]) && tStarStar <= t
      invariant CostTable(d, o, h, costs[..t + 1], cover[..t])
    {
      tStarStar := FillPeriod(d, o, h, dCumsum, costs, cover, t, tStarStar);
    }
    F, coverBy := costs[..], cover[..];
    assert costs[..] == costs[..T + 1];
    assert cover[..] == cover[..T];
  }

  /**
   * `plan` is what the solver returns for (d, o, h): the cost F(T - 1) of a
   * table the recursion produces, and the schedule its cover map prescribes.
   */
  ghost predicate SolvedBy(d: seq<int>, o: seq<int>, h: seq<int>, plan: Plan)
  {
    && SameLength(d, o, h)
    && exists F: seq<int>, cover: seq<int> :: SolvedWith(d, o, h, F, cover, plan)
  }

  /** `plan` comes from the table `F` and the cover map `cover` of (d, o, h). */
  ghost predicate SolvedWith(d: seq<int>, o: seq<int>, h: seq<int>, F: seq<int>, cover: seq<int>, plan: Plan)
  {
    && |F| == |d| + 1 && |cover| == |d| && CoversBackward(cover) && CostTable(d, o, h, F, cover)
    && plan.cost == F[|d|] && plan.solution == Schedule(d, cover, |d| - 1)
  }

  /** Forward pass, then backward pass, on inputs of one length with no negative demand. */
  method Solve(d: seq<int>, o: seq<int>, h: seq<int>) returns (plan: Plan)
    requires SameLength(d, o, h) && |d| > 0
    requires forall i | 0 <= i < |d| :: d[i] >= 0
    ensures SolvedBy(d, o, h, plan)
  {
    var F, cover := ForwardPass(d, o, h);
    BoundBelowPeriod(d, o, h, F, cover);
    var solution := Reconstruct(d, cover);
    plan := Plan(F[|d|], solution);
    assert SolvedWith(d, o, h, F, cover, plan);
  }

  /**
   * `wagner_whitin` as written.  The guard runs first; a holding series one
   * entry short passes it but makes the scan of the last period read h[T - 1],
   * which does not exist, so that input ends in an error as well.
   */
  method WagnerWhitin(d: seq<int>, o: seq<int>, h: seq<int>) returns (r: Result<Plan, SolveError>)
    ensures ValidateInputs(d, o, h).Fail? ==> r == Failure(InvalidInput(ValidateInputs(d, o, h).error))
    ensures ValidateInputs(d, o, h).Pass? && |h| < |d| ==> r == Failure(HoldingIndexOutOfRange)
    ensures ValidateInputs(d, o, h).Pass? && |h| == |d| ==> r.Success? && SolvedBy(d, o, h, r.value)
  {
    var check := ValidateInputs(d, o, h);
    if check.Fail? {
      return Failure(InvalidInput(check.error));
    }
    if |h| < |d| {
      // period T - 1 has positive demand, so its scan starts at j = T - 1
      return Failure(HoldingIndexOutOfRange);
    }
    var plan := Solve(d, o, h);
    return Success(plan);
  }

  /** The holding series brought to length n: a missing last entry becomes 0. */
  function PadHolding(h: seq<int>, n: int): (p: seq<int>)
    requires n - 1 <= |h| <= n
    ensures |p| == n && p[..|h|] == h
  {
    if |h| < n then h + [0] else h
  }

  /**
   * `wagner_whitin` as its guard intends it: a holding series of length T - 1
   * is accepted and solved, the absent last entry standing for any value.
   */
  method WagnerWhitinCorrected(d: seq<int>, o: seq<int>, h: seq<int>) returns (r: Result<Plan, SolveError>)
    ensures ValidateInputs(d, o, h).Fail? ==> r == Failure(InvalidInput(ValidateInputs(d, o, h).error))
    ensures ValidateInputs(d, o, h).Pass? ==> r.Success? && SolvedBy(d, o, PadHolding(h, |d|), r.value)
  {
    var check := ValidateInputs(d, o, h);
    if check.Fail? {
      return Failure(InvalidInput(check.error));
    }
    var plan := Solve(d, o, PadHolding(h, |d|));
    return Success(plan);
  }

  /** The guard lets a holding series one entry short through. */
  lemma ShortHoldingPassesGuard()
    ensures ValidateInputs([5], [10], []) == Pass
  {
  }

  /** The recursion determines the plan: one input has at most one solver result. */
  lemma SolvedByUnique(d: seq<int>, o: seq<int>, h: seq<int>, p1: Plan, p2: Plan)
    requires SolvedBy(d, o, h, p1) && SolvedBy(d, o, h, p2)
    ensures p1 == p2
  {
    var F1: seq<int>, cover1: seq<int> :| SolvedWith(d, o, h, F1, cover1, p1);
    var F2: seq<int>, cover2: seq<int> :| SolvedWith(d, o, h, F2, cover2, p2);
    CostTableUnique(d, o, h, F1, cover1, F2, cover2);
  }

  /**
   * The last holding cost never changes the result: the plan for h is the plan
   * for h with h[T - 1] replaced by any x, in both directions.
   */
  lemma LastHoldingUnused(d: seq<int>, o: seq<int>, h: seq<int>, x: int, plan: Plan)
    requires |h| > 0
    ensures SolvedBy(d, o, h, plan) <==> SolvedBy(d, o, h[|h| - 1 := x], plan)
  {
    var h' := h[|h| - 1 := x];
    if SolvedBy(d, o, h, plan) {
      SolvedAgreeingHolding(d, o, h, h', plan);
    }
    if SolvedBy(d, o, h', plan) {
      SolvedAgreeingHolding(d, o, h', h, plan);
    }
  }

  /** One direction of the above: holding series that differ only in the last entry. */
  lemma SolvedAgreeingHolding(d: seq<int>, o: seq<int>, h1: seq<int>, h2: seq<int>, plan: Plan)
    requires 0 < |h1| == |h2| && h1[..|h1| - 1] == h2[..|h2| - 1]
    requires SolvedBy(d, o, h1, plan)
    ensures SolvedBy(d, o, h2, plan)
  {
    var F: seq<int>, cover: seq<int> :| SolvedWith(d, o, h1, F, cover, plan);
    var last := |h1| - 1;
    CostTableIgnoresLastHolding(d, o, h1, h2[last], F, cover);
    LastReplaced(h1, h2);
    assert SolvedWith(d, o, h2, F, cover, plan);
  }

  /** Two series that agree except in the last entry: replacing the first's last entry gives the second. */
  lemma LastReplaced(h1: seq<int>, h2: seq<int>)
    requires 0 < |h1| == |h2| && h1[..|h1| - 1] == h2[..|h2| - 1]
    ensures h1[|h1| - 1 := h2[|h2| - 1]] == h2
  {
    var last := |h1| - 1;
    forall i | 0 <= i < last ensures h1[i] == h2[i] {
      assert h1[i] == h1[..last][i];
    }
  }

  /**
   * The corrected solver agrees with the one as written wherever the latter
   * succeeds, and on a short holding series it returns the plan of every
   * completion of that series.
   */
  lemma CorrectedAgrees(d: seq<int>, o: seq<int>, h: seq<int>, x: int, plan: Plan)
    requires ValidateInputs(d, o, h).Pass?
    ensures |h| == |d| ==> PadHolding(h, |d|) == h
    ensures |h| < |d| ==> (SolvedBy(d, o, PadHolding(h, |d|), plan) <==> SolvedBy(d, o, h + [x], plan))
  {
    if |h| < |d| {
      var p := PadHolding(h, |d|);
      LastHoldingUnused(d, o, p, x, plan);
      assert p[|p| - 1 := x] == h + [x];
    }
  }

  /**
   * What the solver's schedule promises: one entry per period, the total
   * demand ordered, never a stock-out, no negative order, and every order is
   * the demand of a run of periods starting where it is placed.
   */
  lemma SolutionProperties(d: seq<int>, o: seq<int>, h: seq<int>, plan: Plan)
    requires SolvedBy(d, o, h, plan)
    requires forall i | 0 <= i < |d| :: d[i] >= 0
    ensures |plan.solution| == |d|
    ensures Total(plan.solution) == Total(d)
    ensures NeverShort(d, plan.solution)
    ensures forall k | 0 <= k < |d| :: plan.solution[k] >= 0
    ensures forall k | 0 <= k < |d| && plan.solution[k] != 0 ::
              exists e | k < e <= |d| :: plan.solution[k] == Total(d[k..e])
  {
    var F: seq<int>, cover: seq<int> :| SolvedWith(d, o, h, F, cover, plan);
    ScheduleShape(d, cover, plan.solution);
  }
}
