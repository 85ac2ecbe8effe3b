/**
 * The Planning Horizon theorem behind the bound t** of the forward pass: with
 * no negative demand, order cost or holding cost, an order period j below t**
 * can never beat t** itself, so the scan over [t**, t] finds the least
 * candidate over all of [0, t].  The recursion the solver runs is then the
 * unrestricted Wagner-Whitin recursion.
 */
module Horizon {
  import opened CumSum
  import opened Recurrence

  /** No negative entry. */
  predicate NonNegative(s: seq<int>)
  {
    forall i | 0 <= i < |s| :: s[i] >= 0
  }

  lemma MulMonotone(x: int, y: int, z: int)
    requires x >= 0 && y <= z
    ensures x * y <= x * z
  {
  }

  /**
   * Moving the end of the horizon from t1 to t2 raises S(a) at least as much
   * as S(b) for a <= b: every period a..b-1 now carries the demand of
   * t1+1..t2 as well.
   */
  lemma {:induction false} HoldingGap(d: seq<int>, h: seq<int>, a: int, b: int, t1: int, t2: int)
    requires 0 <= a <= b <= t1 <= t2 < |d| == |h|
    requires NonNegative(d) && NonNegative(h)
    ensures HoldingCost(d, h, a, t2) - HoldingCost(d, h, b, t2) >= HoldingCost(d, h, a, t1) - HoldingCost(d, h, b, t1)
    decreases b - a
  {
    if a < b {
      HoldingGap(d, h, a + 1, b, t1, t2);
      TotalGrows(d, a + 1, t1 + 1, t2 + 1);
      MulMonotone(h[a], Total(d[a + 1..t1 + 1]), Total(d[a + 1..t2 + 1]));
    }
  }

  /** A period without demand adds no holding cost to any earlier order. */
  lemma {:induction false} HoldingZeroDemand(d: seq<int>, h: seq<int>, j: int, t: int)
    requires 0 <= j < t < |d| == |h| && d[t] == 0
    ensures HoldingCost(d, h, j, t) == HoldingCost(d, h, j, t - 1)
    decreases t - j
  {
    assert d[j + 1..t + 1][..t - j - 1] == d[j + 1..t];
    if j + 1 < t {
      HoldingZeroDemand(d, h, j + 1, t);
    } else {
      assert d[t + 1..t + 1] == [];
    }
  }

  /** A positive t** is the cover period of some earlier positive-demand period. */
  lemma {:induction false} BoundWitness(d: seq<int>, cover: seq<int>)
    requires |cover| <= |d| && Bound(d, cover) > 0
    ensures exists t1 | 0 <= t1 < |cover| :: d[t1] != 0 && cover[t1] == Bound(d, cover)
    decreases |cover|
  {
    var t := |cover| - 1;
    var prefix := cover[..t];
    if d[t] == 0 || Bound(d, cover) != cover[t] {
      BoundWitness(d, prefix);
      var t1 :| 0 <= t1 < t && d[t1] != 0 && prefix[t1] == Bound(d, prefix);
      assert cover[t1] == prefix[t1];
    }
  }

  /** The facts of period t over the whole table: the least candidate over [t**, t]. */
  lemma CostTableMin(d: seq<int>, o: seq<int>, h: seq<int>, F: seq<int>, cover: seq<int>, t: nat)
    requires CostTable(d, o, h, F, cover)
    requires t < |cover|
    ensures 0 <= cover[t] <= t
    ensures d[t] != 0 ==> forall j | Bound(d, cover[..t]) <= j <= t :: F[t + 1] <= Candidate(d, o, h, F, t, j)
    ensures d[t] != 0 ==> forall j | cover[t] < j <= t :: F[t + 1] < Candidate(d, o, h, F, t, j)
  {
    CostTableStep(d, o, h, F, cover, t);
    CostTableAt(d, o, h, F, cover, t);
    var F', cover' := F[..t + 2], cover[..t + 1];
    assert cover'[..t] == cover[..t];
    forall j | 0 <= j <= t
      ensures Candidate(d, o, h, F', t, j) == Candidate(d, o, h, F, t, j)
    {
      assert F'[j] == F[j];
    }
  }

  /** A zero-demand period keeps F(t - 1), which no candidate for period t undercuts. */
  lemma ZeroDemandMin(d: seq<int>, o: seq<int>, h: seq<int>, F: seq<int>, t: nat, prev: int)
    requires SameLength(d, o, h) && t < |d| && t + 1 < |F| && prev == t - 1
    requires d[t] == 0 && F[t + 1] == F[t] && o[t] >= 0
    requires forall j | 0 <= j <= prev :: F[t] <= Candidate(d, o, h, F, prev, j)
    ensures forall j | 0 <= j <= t :: F[t + 1] <= Candidate(d, o, h, F, t, j)
  {
    forall j | 0 <= j <= t ensures F[t + 1] <= Candidate(d, o, h, F, t, j) {
      if j == t {
        assert d[t + 1..t + 1] == [];
        assert HoldingCost(d, h, t, t) == 0;
      } else {
        HoldingZeroDemand(d, h, j, t);
        assert F[t] <= Candidate(d, o, h, F, t - 1, j);
      }
    }
  }

  /**
   * For order periods j <= k, moving the end of the horizon from t1 to t
   * raises the candidate of j at least as much as that of k.
   */
  lemma CandidateGap(d: seq<int>, o: seq<int>, h: seq<int>, F: seq<int>, j: int, k: int, t1: int, t: int)
    requires SameLength(d, o, h) && NonNegative(d) && NonNegative(h)
    requires 0 <= j <= k <= t1 <= t < |d| && t < |F|
    ensures Candidate(d, o, h, F, t, k) - Candidate(d, o, h, F, t, j)
         <= Candidate(d, o, h, F, t1, k) - Candidate(d, o, h, F, t1, j)
  {
    HoldingGap(d, h, j, k, t1, t);
  }

  /**
   * Below t**: if t** = cover[t1] was the best order period for an earlier
   * period t1, every j < t** costs at least as much as t** for period t too.
   */
  lemma BelowBoundMin(d: seq<int>, o: seq<int>, h: seq<int>, F: seq<int>, t: nat, t1: nat, low: nat)
    requires SameLength(d, o, h) && t < |d| && t + 1 < |F|
    requires NonNegative(d) && NonNegative(h)
    requires low <= t1 < t
    requires forall j | 0 <= j <= t1 :: F[t1 + 1] <= Candidate(d, o, h, F, t1, j)
    requires F[t1 + 1] == Candidate(d, o, h, F, t1, low)
    requires F[t + 1] <= Candidate(d, o, h, F, t, low)
    ensures forall j | 0 <= j < low :: F[t + 1] <= Candidate(d, o, h, F, t, j)
  {
    forall j | 0 <= j < low ensures F[t + 1] <= Candidate(d, o, h, F, t, j) {
      CandidateGap(d, o, h, F, j, low, t1, t);
    }
  }

  /**
   * The Planning Horizon theorem: F(t) is no more than the candidate of ANY
   * order period j in [0, t], not only of those in [t**, t].
   */
  lemma {:induction false} PlanningHorizon(d: seq<int>, o: seq<int>, h: seq<int>, F: seq<int>, cover: seq<int>, t: nat)
    requires CostTable(d, o, h, F, cover)
    requires t < |cover|
    requires NonNegative(d) && NonNegative(o) && NonNegative(h)
    ensures forall j | 0 <= j <= t :: F[t + 1] <= Candidate(d, o, h, F, t, j)
    decreases t
  {
    CostTableStep(d, o, h, F, cover, t);
    if d[t] == 0 {
      if t > 0 {
        PlanningHorizon(d, o, h, F, cover, t - 1);
      }
      ZeroDemandMin(d, o, h, F, t, t - 1);
    } else {
      CostTableMin(d, o, h, F, cover, t);
      var low := Bound(d, cover[..t]);
      if low > 0 {
        BoundWitness(d, cover[..t]);
        var t1 :| 0 <= t1 < t && d[t1] != 0 && cover[..t][t1] == low;
        PlanningHorizon(d, o, h, F, cover, t1);
        CostTableStep(d, o, h, F, cover, t1);
        BelowBoundMin(d, o, h, F, t, t1, low);
      }
    }
  }

  /**
   * Period t of the unrestricted recursion: a zero-demand period repeats
   * F(t - 1) and covers itself; otherwise F(t) is the least candidate over
   * all of [0, t] and the cover period is the largest j reaching it.
   */
  ghost predicate FullStep(d: seq<int>, o: seq<int>, h: seq<int>, F: seq<int>, cover: seq<int>, t: nat)
    requires SameLength(d, o, h)
    requires t < |cover| <= |d| && |F| == |cover| + 1
  {
    if d[t] == 0 then F[t + 1] == F[t] && cover[t] == t
    else
      && 0 <= cover[t] <= t
      && F[t + 1] == Candidate(d, o, h, F, t, cover[t])
      && (forall j | 0 <= j <= t :: F[t + 1] <= Candidate(d, o, h, F, t, j))
      && (forall j | cover[t] < j <= t :: F[t + 1] < Candidate(d, o, h, F, t, j))
  }

  /** The table and cover map of the unrestricted recursion for the first |cover| periods. */
  ghost predicate FullTable(d: seq<int>, o: seq<int>, h: seq<int>, F: seq<int>, cover: seq<int>)
  {
    && SameLength(d, o, h) && |cover| <= |d| && |F| == |cover| + 1 && F[0] == 0
    && forall t: nat | t < |cover| :: FullStep(d, o, h, F, cover, t)
  }

  /**
   * The pruned recursion the solver runs is the unrestricted one: every
   * period of its table satisfies the recursion over all of [0, t].
   */
  lemma PrunedIsFull(d: seq<int>, o: seq<int>, h: seq<int>, F: seq<int>, cover: seq<int>)
    requires CostTable(d, o, h, F, cover)
    requires NonNegative(d) && NonNegative(o) && NonNegative(h)
    ensures FullTable(d, o, h, F, cover)
  {
    forall t: nat | t < |cover| ensures FullStep(d, o, h, F, cover, t) {
      CostTableStep(d, o, h, F, cover, t);
      CostTableMin(d, o, h, F, cover, t);
      PlanningHorizon(d, o, h, F, cover, t);
    }
  }

  /** Dropping the last period of an unrestricted table leaves one. */
  lemma FullPrefix(d: seq<int>, o: seq<int>, h: seq<int>, F: seq<int>, cover: seq<int>)
    requires FullTable(d, o, h, F, cover) && cover != []
    ensures FullTable(d, o, h, F[..|F| - 1], cover[..|cover| - 1])
  {
    var F0, c0 := F[..|F| - 1], cover[..|cover| - 1];
    forall t: nat | t < |c0| ensures FullStep(d, o, h, F0, c0, t) {
      assert FullStep(d, o, h, F, cover, t);
      forall j | 0 <= j <= t ensures Candidate(d, o, h, F0, t, j) == Candidate(d, o, h, F, t, j) {
        assert F0[j] == F[j];
      }
    }
  }

  /**
   * In the unrestricted recursion the cover period of a positive-demand
   * period t is never below t**: an earlier order period j < t** is beaten
   * or tied by t** itself, and ties go to the later period.
   */
  lemma CoverAboveBound(d: seq<int>, o: seq<int>, h: seq<int>, F: seq<int>, cover: seq<int>, t: nat)
    requires FullTable(d, o, h, F, cover) && t < |cover| && d[t] != 0
    requires NonNegative(d) && NonNegative(h)
    ensures Bound(d, cover[..t]) <= cover[t]
  {
    var low := Bound(d, cover[..t]);
    assert FullStep(d, o, h, F, cover, t);
    if low > 0 {
      BoundWitness(d, cover[..t]);
      var t1 :| 0 <= t1 < t && d[t1] != 0 && cover[..t][t1] == low;
      assert FullStep(d, o, h, F, cover, t1);
      if cover[t] < low {
        CandidateGap(d, o, h, F, cover[t], low, t1, t);
        assert false;
      }
    }
  }

  /** The facts of the last unrestricted period, stated over the table before it. */
  lemma FullStepOnPrefix(d: seq<int>, o: seq<int>, h: seq<int>, F: seq<int>, cover: seq<int>,
                         F0: seq<int>, c0: seq<int>, t: nat)
    requires FullTable(d, o, h, F, cover) && t == |cover| - 1
    requires F0 == F[..t + 1] && c0 == cover[..t]
    requires NonNegative(d) && NonNegative(h)
    ensures d[t] == 0 ==> F[t + 1] == F0[t] && cover[t] == t
    ensures d[t] != 0 ==>
      && Bound(d, c0) <= cover[t] <= t
      && F[t + 1] == Candidate(d, o, h, F0, t, cover[t])
      && (forall j | Bound(d, c0) <= j <= t :: F[t + 1] <= Candidate(d, o, h, F0, t, j))
      && (forall j | cover[t] < j <= t :: F[t + 1] < Candidate(d, o, h, F0, t, j))
  {
    assert FullStep(d, o, h, F, cover, t);
    forall j | 0 <= j <= t ensures Candidate(d, o, h, F0, t, j) == Candidate(d, o, h, F, t, j) {
      assert F0[j] == F[j];
    }
    if d[t] != 0 {
      CoverAboveBound(d, o, h, F, cover, t);
    }
  }

  /** The facts of the unrestricted period t are the facts the pruned table needs. */
  lemma FullStepExtends(d: seq<int>, o: seq<int>, h: seq<int>, F: seq<int>, cover: seq<int>)
    requires FullTable(d, o, h, F, cover) && cover != []
    requires NonNegative(d) && NonNegative(h)
    requires CostTable(d, o, h, F[..|F| - 1], cover[..|cover| - 1])
    ensures CostTable(d, o, h, F, cover)
  {
    var t := |cover| - 1;
    var F0, c0 := F[..t + 1], cover[..t];
    FullStepOnPrefix(d, o, h, F, cover, F0, c0, t);
    ExtendTable(d, o, h, F0, c0, F[t + 1], cover[t]);
    assert F0 + [F[t + 1]] == F;
    assert c0 + [cover[t]] == cover;
  }

  /** The unrestricted recursion is the pruned one: its tables are the solver's. */
  lemma {:induction false} FullIsPruned(d: seq<int>, o: seq<int>, h: seq<int>, F: seq<int>, cover: seq<int>)
    requires FullTable(d, o, h, F, cover)
    requires NonNegative(d) && NonNegative(h)
    ensures CostTable(d, o, h, F, cover)
    decreases |cover|
  {
    if cover != [] {
      FullPrefix(d, o, h, F, cover);
      FullIsPruned(d, o, h, F[..|F| - 1], cover[..|cover| - 1]);
      FullStepExtends(d, o, h, F, cover);
    }
  }

  /**
   * The Planning Horizon theorem as an equivalence: with no negative demand,
   * order cost or holding cost, a table and cover map satisfy the pruned
   * recursion of the solver exactly when they satisfy the unrestricted one.
   */
  lemma PrunedIffFull(d: seq<int>, o: seq<int>, h: seq<int>, F: seq<int>, cover: seq<int>)
    requires NonNegative(d) && NonNegative(o) && NonNegative(h)
    ensures CostTable(d, o, h, F, cover) <==> FullTable(d, o, h, F, cover)
  {
    if CostTable(d, o, h, F, cover) {
      PrunedIsFull(d, o, h, F, cover);
    }
    if FullTable(d, o, h, F, cover) {
      FullIsPruned(d, o, h, F, cover);
    }
  }
}
