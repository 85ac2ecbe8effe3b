/**
 * The separate O(n^2) programme `wagner_within` of main.py.  Its cost model
 * charges a fixed amount per period (`stockCost`) and a fixed amount per unit
 * produced (`productionCost`); best[i] is the cheapest way to meet the demand
 * of the first i periods, the last run j..i-1 being produced in one lot.
 */
module Within {
  import opened CumSum

  /** An entry of the cost table: `float('inf')` until a first candidate is seen. */
  datatype Cost = Infinity | Finite(value: int)

  /** The comparison `x < c` against a table entry; every integer is below infinity. */
  predicate Below(x: int, c: Cost)
  {
    c.Infinity? || x < c.value
  }

  /** best[i]: the least cost over the candidates j < i, or 0 for no periods. */
  function Best(d: seq<int>, s: int, u: int, i: nat): int
    requires i <= |d|
    decreases i, 2, 0
  {
    if i == 0 then 0 else RunCost(d, s, u, i, Pick(d, s, u, i, i))
  }

  /** The cost of meeting periods 0..i-1 when the last lot covers j..i-1. */
  function RunCost(d: seq<int>, s: int, u: int, i: nat, j: nat): int
    requires j < i <= |d|
    decreases i, 0, 0
  {
    Best(d, s, u, j) + s * (i - j) + u * Total(d[j..i])
  }

  /**
   * The candidate j < k the scan for period i keeps: the first one whose cost
   * no earlier candidate beats, since a later candidate replaces the kept one
   * only when it is strictly cheaper.
   */
  function Pick(d: seq<int>, s: int, u: int, i: nat, k: nat): (j: nat)
    requires 0 < k <= i <= |d|
    ensures j < k
    decreases i, 1, k
  {
    if k == 1 then 0
    else
      var j := Pick(d, s, u, i, k - 1);
      if RunCost(d, s, u, i, k - 1) < RunCost(d, s, u, i, j) then k - 1 else j
  }

  /** The lots of the plan kept for periods 0..i-1, one per run. */
  function PlanOf(d: seq<int>, s: int, u: int, i: nat): seq<int>
    requires i <= |d|
    decreases i
  {
    if i == 0 then []
    else
      var j := Pick(d, s, u, i, i);
      PlanOf(d, s, u, j) + [Total(d[j..i])]
  }

  /** Each lot priced at `u` per unit. */
  function Scaled(plan: seq<int>, u: int): seq<int>
  {
    if plan == [] then []
    else Scaled(plan[..|plan| - 1], u) + [plan[|plan| - 1] * u]
  }

  /** The price list has one entry per lot: the lot's quantity times `u`. */
  lemma {:induction false} ScaledEntries(plan: seq<int>, u: int)
    ensures |Scaled(plan, u)| == |plan|
    ensures forall k | 0 <= k < |plan| :: Scaled(plan, u)[k] == plan[k] * u
    decreases |plan|
  {
    if plan != [] {
      ScaledEntries(plan[..|plan| - 1], u);
    }
  }

  /** Appending a lot appends its price. */
  lemma ScaledAppend(plan: seq<int>, q: int, u: int)
    ensures Scaled(plan + [q], u) == Scaled(plan, u) + [q * u]
  {
    assert (plan + [q])[..|plan|] == plan;
  }

  /** Entry m of the three tables holds best[m], its plan and that plan's lot prices. */
  ghost predicate Filled(d: seq<int>, s: int, u: int, dp: array<Cost>, planTable: array<seq<int>>,
                         costTable: array<seq<int>>, m: nat)
    requires m <= |d| && m < dp.Length && m < planTable.Length && m < costTable.Length
    reads dp, planTable, costTable
  {
    && dp[m] == Finite(Best(d, s, u, m))
    && planTable[m] == PlanOf(d, s, u, m)
    && costTable[m] == Scaled(planTable[m], u)
  }

  /** Entry i of the three tables holds candidate k's cost, plan and lot prices. */
  ghost predicate Kept(d: seq<int>, s: int, u: int, dp: array<Cost>, planTable: array<seq<int>>,
                       costTable: array<seq<int>>, i: nat, k: nat)
    requires k < i <= |d| && i < dp.Length && i < planTable.Length && i < costTable.Length
    reads dp, planTable, costTable
  {
    && dp[i] == Finite(RunCost(d, s, u, i, k))
    && planTable[i] == PlanOf(d, s, u, k) + [Total(d[k..i])]
    && costTable[i] == Scaled(planTable[i], u)
  }

  /**
   * One turn of the inner loop: candidate j for period i replaces entry i
   * when entry i is still infinite or j is strictly cheaper.
   */
  method ConsiderCandidate(d: seq<int>, s: int, u: int, i: nat, j: nat,
                           dp: array<Cost>, planTable: array<seq<int>>, costTable: array<seq<int>>)
    requires j < i <= |d|
    requires dp.Length == planTable.Length == costTable.Length == |d| + 1
    requires planTable != costTable
    requires Filled(d, s, u, dp, planTable, costTable, j)
    requires j == 0 ==> dp[i] == Infinity
    requires j > 0 ==> Kept(d, s, u, dp, planTable, costTable, i, Pick(d, s, u, i, j))
    modifies dp, planTable, costTable
    ensures Kept(d, s, u, dp, planTable, costTable, i, Pick(d, s, u, i, j + 1))
    ensures forall m | 0 <= m <= |d| && m != i ::
      dp[m] == old(dp[m]) && planTable[m] == old(planTable[m]) && costTable[m] == old(costTable[m])
  {
    var quantity := Total(d[j..i]);
    var totalCost := dp[j].value + s * (i - j) + u * quantity;
    assert totalCost == RunCost(d, s, u, i, j);
    if Below(totalCost, dp[i]) {
      assert Pick(d, s, u, i, j + 1) == j;
      ScaledAppend(planTable[j], quantity, u);
      dp[i] := Finite(totalCost);
      planTable[i] := planTable[j] + [quantity];
      costTable[i] := costTable[j] + [quantity * u];
      assert Kept(d, s, u, dp, planTable, costTable, i, j);
    } else {
      assert Pick(d, s, u, i, j + 1) == Pick(d, s, u, i, j);
    }
  }

  /**
   * The inner loop of `wagner_within` for one period i: candidates j = 0..i-1
   * replace entry i whenever strictly cheaper.  Only entry i changes.
   */
  method ScanPeriod(d: seq<int>, s: int, u: int, i: nat,
                    dp: array<Cost>, planTable: array<seq<int>>, costTable: array<seq<int>>)
    requires 0 < i <= |d|
    requires dp.Length == planTable.Length == costTable.Length == |d| + 1
    requires planTable != costTable
    requires forall m | 0 <= m < i :: Filled(d, s, u, dp, planTable, costTable, m)
    requires dp[i] == Infinity
    modifies dp, planTable, costTable
    ensures Filled(d, s, u, dp, planTable, costTable, i)
    ensures forall m | 0 <= m <= |d| && m != i ::
      dp[m] == old(dp[m]) && planTable[m] == old(planTable[m]) && costTable[m] == old(costTable[m])
  {
    for j := 0 to i
      invariant forall m | 0 <= m <= |d| && m != i ::
        dp[m] == old(dp[m]) && planTable[m] == old(planTable[m]) && costTable[m] == old(costTable[m])
      invariant j == 0 ==> dp[i] == Infinity
      invariant j > 0 ==> Kept(d, s, u, dp, planTable, costTable, i, Pick(d, s, u, i, j))
    {
      assert Filled(d, s, u, dp, planTable, costTable, j) by {
        assert old(Filled(d, s, u, dp, planTable, costTable, j));
      }
      ConsiderCandidate(d, s, u, i, j, dp, planTable, costTable);
    }
  }

  /**
   * `wagner_within`: entry i of each table is settled by the scan of period
   * i, once entries 0..i-1 are.
   */
  method WagnerWithin(demands: seq<int>, stockCost: int, productionCost: int)
    returns (total: Cost, plans: seq<seq<int>>, periodCosts: seq<seq<int>>)
    ensures total == Finite(Best(demands, stockCost, productionCost, |demands|))
    ensures |plans| == |periodCosts| == |demands| + 1
    ensures forall i | 0 <= i <= |demands| :: plans[i] == PlanOf(demands, stockCost, productionCost, i)
    ensures forall i | 0 <= i <= |demands| :: periodCosts[i] == Scaled(plans[i], productionCost)
  {
    var d, s, u := demands, stockCost, productionCost;
    var n := |d|;
    var dp := new Cost[n + 1](_ => Infinity);
    var planTable := new seq<int>[n + 1](_ => []);
    var costTable := new seq<int>[n + 1](_ => []);
    dp[0] := Finite(0);
    for i := 1 to n + 1
      invariant forall m | 0 <= m < i :: Filled(d, s, u, dp, planTable, costTable, m)
      invariant forall m | i <= m <= n :: dp[m] == Infinity
    {
      label BeforeScan:
      ScanPeriod(d, s, u, i, dp, planTable, costTable);
      forall m | 0 <= m < i ensures Filled(d, s, u, dp, planTable, costTable, m) {
        assert old@BeforeScan(Filled(d, s, u, dp, planTable, costTable, m));
      }
    }
    assert Filled(d, s, u, dp, planTable, costTable, n);
    total := dp[n];
    plans := planTable[..];
    periodCosts := costTable[..];
    forall m | 0 <= m <= n ensures plans[m] == PlanOf(d, s, u, m) && periodCosts[m] == Scaled(plans[m], u) {
      assert Filled(d, s, u, dp, planTable, costTable, m);
    }
  }

  /**
   * The kept candidate is a minimum over j < k, and the first one: every
   * earlier candidate costs strictly more.
   */
  lemma {:induction false} PickIsFirstMinimum(d: seq<int>, s: int, u: int, i: nat, k: nat)
    requires 0 < k <= i <= |d|
    ensures forall j | 0 <= j < k :: RunCost(d, s, u, i, Pick(d, s, u, i, k)) <= RunCost(d, s, u, i, j)
    ensures forall j | 0 <= j < Pick(d, s, u, i, k) :: RunCost(d, s, u, i, Pick(d, s, u, i, k)) < RunCost(d, s, u, i, j)
    decreases k
  {
    if k > 1 {
      PickIsFirstMinimum(d, s, u, i, k - 1);
    }
  }

  /**
   * best[i] for i >= 1 is the least candidate cost over all j < i, reached at
   * the smallest such j.
   */
  lemma BestIsFirstMinimum(d: seq<int>, s: int, u: int, i: nat)
    requires 0 < i <= |d|
    ensures forall j | 0 <= j < i :: Best(d, s, u, i) <= RunCost(d, s, u, i, j)
    ensures exists j | 0 <= j < i :: Best(d, s, u, i) == RunCost(d, s, u, i, j)
              && forall m | 0 <= m < j :: Best(d, s, u, i) < RunCost(d, s, u, i, m)
  {
    PickIsFirstMinimum(d, s, u, i, i);
    var j := Pick(d, s, u, i, i);
    assert Best(d, s, u, i) == RunCost(d, s, u, i, j);
  }

  /**
   * The plan for periods 0..i-1 orders exactly their demand, and each lot is
   * the demand of a run of consecutive periods.
   */
  lemma {:induction false} PlanCoversDemand(d: seq<int>, s: int, u: int, i: nat)
    requires i <= |d|
    ensures Total(PlanOf(d, s, u, i)) == Total(d[..i])
    ensures forall k | 0 <= k < |PlanOf(d, s, u, i)| ::
              exists a, b | 0 <= a <= b <= i :: PlanOf(d, s, u, i)[k] == Total(d[a..b])
    decreases i
  {
    if i > 0 {
      var j := Pick(d, s, u, i, i);
      var front := PlanOf(d, s, u, j);
      var plan := PlanOf(d, s, u, i);
      PlanCoversDemand(d, s, u, j);
      TotalConcat(front, [Total(d[j..i])]);
      assert [Total(d[j..i])][..0] == [];
      TotalSplit(d, 0, j, i);
      assert d[..j] == d[0..j] && d[..i] == d[0..i];
      forall k | 0 <= k < |plan| ensures exists a, b | 0 <= a <= b <= i :: plan[k] == Total(d[a..b]) {
        if k < |front| {
          assert plan[k] == front[k];
          var a, b :| 0 <= a <= b <= j && front[k] == Total(d[a..b]);
          assert 0 <= a <= b <= i;
        } else {
          assert plan[k] == Total(d[j..i]);
        }
      }
    }
  }

  lemma Distribute(u: int, a: int, b: int)
    ensures u * a + u * b == u * (a + b)
  {
  }

  /** When every candidate for period i costs c, the scan keeps the first one. */
  lemma {:induction false} PickWithEqualCosts(d: seq<int>, s: int, u: int, i: nat, k: nat, c: int)
    requires 0 < k <= i <= |d|
    requires forall j | 0 <= j < i :: RunCost(d, s, u, i, j) == c
    ensures Pick(d, s, u, i, k) == 0
    decreases k
  {
    if k > 1 {
      PickWithEqualCosts(d, s, u, i, k - 1, c);
    }
  }

  /**
   * Every split costs the same, so best[i] is the per-period charge for i
   * periods plus the production charge for their whole demand, and the plan
   * kept for i >= 1 is one lot in period 0.
   */
  lemma {:induction false} ClosedForm(d: seq<int>, s: int, u: int, i: nat)
    requires i <= |d|
    ensures Best(d, s, u, i) == s * i + u * Total(d[..i])
    ensures 0 < i ==> Pick(d, s, u, i, i) == 0 && PlanOf(d, s, u, i) == [Total(d[..i])]
    decreases i
  {
    if i > 0 {
      var c := s * i + u * Total(d[..i]);
      forall j | 0 <= j < i ensures RunCost(d, s, u, i, j) == c {
        ClosedForm(d, s, u, j);
        TotalSplit(d, 0, j, i);
        assert d[..j] == d[0..j] && d[..i] == d[0..i];
        Distribute(u, Total(d[..j]), Total(d[j..i]));
      }
      PickWithEqualCosts(d, s, u, i, i, c);
      assert d[0..i] == d[..i];
    }
  }
}
