/**
 * The Wagner-Whitin forward recursion stated declaratively: the input guard,
 * the holding-cost term S_t(j), the monotone planning-horizon bound t**, and
 * the predicate saying that a cost table F and a cover map are what the
 * recursion produces.  The imperative solver in module Solver is proved
 * against `CostTable`.
 */
module Recurrence {
  import opened Outcomes
  import opened CumSum

  /** Which input guard of the solver failed, in the order the guards run. */
  datatype InputError =
    | LengthMismatch         // demands and order costs differ in length
    | HoldingLength          // holding costs neither n nor n - 1 long
    | EmptyDemands           // no last demand to inspect
    | LastDemandNotPositive
    | NegativeDemand
    | NegativeOrderCost

  datatype Check = Pass | Fail(error: InputError)

  /**
   * A well-formed problem instance as the guard admits it.  Holding costs are
   * neither sign-checked nor required to be as long as the demands.
   */
  predicate ValidInstance(d: seq<int>, o: seq<int>, h: seq<int>)
  {
    && |d| == |o|
    && |d| - 1 <= |h| <= |d|
    && |d| > 0
    && d[|d| - 1] > 0
    && (forall i | 0 <= i < |d| :: d[i] >= 0)
    && (forall i | 0 <= i < |o| :: o[i] >= 0)
  }

  /** The input guard `_validate_inputs`: reports the first violated condition. */
  function ValidateInputs(d: seq<int>, o: seq<int>, h: seq<int>): (r: Check)
    ensures r.Pass? <==> ValidInstance(d, o, h)
    ensures r == Fail(LengthMismatch) <==> |d| != |o|
    ensures r == Fail(HoldingLength) <==> |d| == |o| && !(|d| - 1 <= |h| <= |d|)
    ensures r == Fail(EmptyDemands) <==> |d| == |o| == |h| == 0
    ensures r == Fail(LastDemandNotPositive) <==>
      |d| == |o| && |d| - 1 <= |h| <= |d| && |d| > 0 && d[|d| - 1] <= 0
    ensures r == Fail(NegativeDemand) <==>
      && |d| == |o| && |d| - 1 <= |h| <= |d| && |d| > 0 && d[|d| - 1] > 0
      && exists i | 0 <= i < |d| :: d[i] < 0
    ensures r == Fail(NegativeOrderCost) <==>
      && |d| == |o| && |d| - 1 <= |h| <= |d| && |d| > 0 && d[|d| - 1] > 0
      && (forall i | 0 <= i < |d| :: d[i] >= 0)
      && exists i | 0 <= i < |o| :: o[i] < 0
  {
    if |d| != |o| then Fail(LengthMismatch)
    else if !(|d| - 1 <= |h| <= |d|) then Fail(HoldingLength)
    else if |d| == 0 then Fail(EmptyDemands)
    else if d[|d| - 1] <= 0 then Fail(LastDemandNotPositive)
    else if exists i | 0 <= i < |d| :: d[i] < 0 then Fail(NegativeDemand)
    else if exists i | 0 <= i < |o| :: o[i] < 0 then Fail(NegativeOrderCost)
    else Pass
  }

  /** Demands, order costs and holding costs of one length: what the recursion reads. */
  predicate SameLength(d: seq<int>, o: seq<int>, h: seq<int>)
  {
    |o| == |d| && |h| == |d|
  }

  /**
   * S_t(j): holding cost of covering periods j..t with one order placed at j,
   * h[j] * (d[j+1] + ... + d[t]) + S_t(j + 1), accumulated as j decreases.
   * The term for j == t multiplies h[t] by an empty demand range.
   */
  function HoldingCost(d: seq<int>, h: seq<int>, j: int, t: int): int
    requires 0 <= j <= t < |d| == |h|
    decreases t - j
  {
    h[j] * Total(d[j + 1..t + 1]) + (if j == t then 0 else HoldingCost(d, h, j + 1, t))
  }

  /**
   * Cost of meeting demand through period t when the last order is placed at j:
   * o[j] + S_t(j) + F(j - 1).  `F` is offset by one: `F[k]` is the cost through
   * period k - 1, so `F[0]` is the base case for period -1.
   */
  function Candidate(d: seq<int>, o: seq<int>, h: seq<int>, F: seq<int>, t: int, j: int): int
    requires SameLength(d, o, h)
    requires 0 <= j <= t < |d| && j < |F|
  {
    o[j] + HoldingCost(d, h, j, t) + F[j]
  }

  /**
   * t**: the lower end of the search range when period |cover| comes up.  It
   * starts at 0 and each positive-demand period raises it to its own cover period.
   */
  function Bound(d: seq<int>, cover: seq<int>): (b: int)
    requires |cover| <= |d|
    ensures b >= 0
    ensures cover != [] && d[|cover| - 1] != 0 ==> b >= cover[|cover| - 1]
    decreases |cover|
  {
    if cover == [] then 0
    else
      var t := |cover| - 1;
      if d[t] == 0 then Bound(d, cover[..t]) else Max(Bound(d, cover[..t]), cover[t])
  }

  /**
   * Period t of the recursion.  A zero-demand period costs what the previous
   * one did and covers itself.  Otherwise F(t) is the least candidate over
   * j in [t**, t], and cover[t] is the LARGEST j that reaches it.
   */
  ghost predicate Step(d: seq<int>, o: seq<int>, h: seq<int>, F: seq<int>, cover: seq<int>, t: nat)
    requires SameLength(d, o, h)
    requires t < |d| && |F| == t + 2 && |cover| == t + 1
  {
    if d[t] == 0 then F[t + 1] == F[t] && cover[t] == t
    else
      var low := Bound(d, cover[..t]);
      && low <= cover[t] <= t
      && F[t + 1] == Candidate(d, o, h, F, t, cover[t])
      && (forall j | low <= j <= t :: F[t + 1] <= Candidate(d, o, h, F, t, j))
      && (forall j | cover[t] < j <= t :: F[t + 1] < Candidate(d, o, h, F, t, j))
  }

  /**
   * `F` (offset by one) and `cover` are the cost table and cover map that the
   * forward recursion computes for the first |cover| periods.
   */
  ghost predicate CostTable(d: seq<int>, o: seq<int>, h: seq<int>, F: seq<int>, cover: seq<int>)
    decreases |cover|
  {
    && SameLength(d, o, h)
    && |cover| <= |d|
    && |F| == |cover| + 1
    && F[0] == 0
    && (cover != [] ==>
          && CostTable(d, o, h, F[..|F| - 1], cover[..|cover| - 1])
          && Step(d, o, h, F, cover, |cover| - 1))
  }

  /**
   * One more period of the recursion: the facts about period t = |cover|,
   * stated over the table so far, extend it by one entry.
   */
  lemma ExtendTable(d: seq<int>, o: seq<int>, h: seq<int>, F: seq<int>, cover: seq<int>, v: int, c: int)
    requires CostTable(d, o, h, F, cover)
    requires |cover| < |d|
    requires d[|cover|] == 0 ==> v == F[|cover|] && c == |cover|
    requires d[|cover|] != 0 ==>
      && Bound(d, cover) <= c <= |cover|
      && v == Candidate(d, o, h, F, |cover|, c)
      && (forall j | Bound(d, cover) <= j <= |cover| :: v <= Candidate(d, o, h, F, |cover|, j))
      && (forall j | c < j <= |cover| :: v < Candidate(d, o, h, F, |cover|, j))
    ensures CostTable(d, o, h, F + [v], cover + [c])
  {
    var t := |cover|;
    var F', cover' := F + [v], cover + [c];
    assert F'[..|F'| - 1] == F;
    assert cover'[..|cover'| - 1] == cover;
    assert cover'[..t] == cover;
    forall j | 0 <= j <= t
      ensures Candidate(d, o, h, F', t, j) == Candidate(d, o, h, F, t, j)
    {
      assert F'[j] == F[j];
    }
  }

  /** Every period is covered by itself or an earlier period. */
  predicate CoversBackward(cover: seq<int>)
  {
    forall k | 0 <= k < |cover| :: 0 <= cover[k] <= k
  }

  /** The table fixes each period's fact for every later extension. */
  lemma {:induction false} CostTableAt(d: seq<int>, o: seq<int>, h: seq<int>, F: seq<int>, cover: seq<int>, t: nat)
    requires CostTable(d, o, h, F, cover)
    requires t < |cover|
    ensures CostTable(d, o, h, F[..t + 2], cover[..t + 1])
    ensures Step(d, o, h, F[..t + 2], cover[..t + 1], t)
    decreases |cover|
  {
    if t + 1 == |cover| {
      assert F[..t + 2] == F && cover[..t + 1] == cover;
    } else {
      CostTableAt(d, o, h, F[..|F| - 1], cover[..|cover| - 1], t);
      assert F[..|F| - 1][..t + 2] == F[..t + 2];
      assert cover[..|cover| - 1][..t + 1] == cover[..t + 1];
    }
  }

  /** Period t's cost as the whole table records it: F(t - 1) again, or the chosen candidate. */
  lemma CostTableStep(d: seq<int>, o: seq<int>, h: seq<int>, F: seq<int>, cover: seq<int>, t: nat)
    requires CostTable(d, o, h, F, cover)
    requires t < |cover|
    ensures 0 <= cover[t] <= t
    ensures d[t] == 0 ==> F[t + 1] == F[t] && cover[t] == t
    ensures d[t] != 0 ==> F[t + 1] == Candidate(d, o, h, F, t, cover[t])
  {
    CostTableAt(d, o, h, F, cover, t);
    var F', cover' := F[..t + 2], cover[..t + 1];
    assert cover'[..t] == cover[..t];
    assert F'[cover[t]] == F[cover[t]];
  }

  /** The candidate search range is never empty: t** <= t, and cover[t] is in [t**, t]. */
  lemma {:induction false} BoundBelowPeriod(d: seq<int>, o: seq<int>, h: seq<int>, F: seq<int>, cover: seq<int>)
    requires CostTable(d, o, h, F, cover)
    ensures Bound(d, cover) <= |cover|
    ensures CoversBackward(cover)
    decreases |cover|
  {
    if cover != [] {
      var t := |cover| - 1;
      BoundBelowPeriod(d, o, h, F[..t + 1], cover[..t]);
      forall k | 0 <= k < |cover| ensures 0 <= cover[k] <= k {
        if k < t {
          assert cover[k] == cover[..t][k];
        }
      }
    }
  }

  /** t** never decreases from one period to a later one. */
  lemma {:induction false} BoundMonotone(d: seq<int>, cover: seq<int>, s: nat, t: nat)
    requires s <= t <= |cover| <= |d|
    ensures Bound(d, cover[..s]) <= Bound(d, cover[..t])
    decreases t - s
  {
    if s < t {
      BoundMonotone(d, cover, s, t - 1);
      assert cover[..t][..t - 1] == cover[..t - 1];
    }
  }

  /**
   * S_t(j) for a length-T holding series does not depend on its last entry
   * h[T-1]: that entry is read only at j = t = T-1, where it multiplies the
   * empty demand range d[T..T-1].
   */
  lemma {:induction false} HoldingCostIgnoresLast(d: seq<int>, h: seq<int>, x: int, j: int, t: int)
    requires 0 <= j <= t < |d| == |h|
    ensures HoldingCost(d, h, j, t) == HoldingCost(d, h[|h| - 1 := x], j, t)
    decreases t - j
  {
    if j < t {
      HoldingCostIgnoresLast(d, h, x, j + 1, t);
    } else {
      assert d[j + 1..t + 1] == [];
    }
  }

  /**
   * The final holding-cost entry is never used: a table for one holding series
   * is a table for the same series with its last entry replaced.
   */
  lemma {:induction false} CostTableIgnoresLastHolding(d: seq<int>, o: seq<int>, h: seq<int>, x: int, F: seq<int>, cover: seq<int>)
    requires CostTable(d, o, h, F, cover)
    requires |h| > 0
    ensures CostTable(d, o, h[|h| - 1 := x], F, cover)
    decreases |cover|
  {
    var h' := h[|h| - 1 := x];
    if cover != [] {
      var t := |cover| - 1;
      CostTableIgnoresLastHolding(d, o, h, x, F[..t + 1], cover[..t]);
      forall j | 0 <= j <= t
        ensures Candidate(d, o, h, F, t, j) == Candidate(d, o, h', F, t, j)
      {
        HoldingCostIgnoresLast(d, h, x, j, t);
      }
    }
  }

  /**
   * One period admits one outcome: over the same earlier table, the least
   * candidate is one value and the largest index reaching it is one index.
   */
  lemma StepUnique(d: seq<int>, o: seq<int>, h: seq<int>,
                   F1: seq<int>, cover1: seq<int>, F2: seq<int>, cover2: seq<int>, t: nat)
    requires SameLength(d, o, h) && t < |d|
    requires |F1| == |F2| == t + 2 && |cover1| == |cover2| == t + 1
    requires F1[..t + 1] == F2[..t + 1] && cover1[..t] == cover2[..t]
    requires Step(d, o, h, F1, cover1, t) && Step(d, o, h, F2, cover2, t)
    ensures F1[t + 1] == F2[t + 1] && cover1[t] == cover2[t]
  {
    if d[t] != 0 {
      forall j | 0 <= j <= t
        ensures Candidate(d, o, h, F1, t, j) == Candidate(d, o, h, F2, t, j)
      {
        assert F1[j] == F1[..t + 1][j];
        assert F2[j] == F2[..t + 1][j];
      }
    }
  }

  /** The recursion has one outcome: two tables for the same periods are equal. */
  lemma {:induction false} CostTableUnique(d: seq<int>, o: seq<int>, h: seq<int>,
                                           F1: seq<int>, cover1: seq<int>, F2: seq<int>, cover2: seq<int>)
    requires CostTable(d, o, h, F1, cover1)
    requires CostTable(d, o, h, F2, cover2)
    requires |cover1| == |cover2|
    ensures F1 == F2 && cover1 == cover2
    decreases |cover1|
  {
    if cover1 != [] {
      var t := |cover1| - 1;
      CostTableUnique(d, o, h, F1[..t + 1], cover1[..t], F2[..t + 1], cover2[..t]);
      StepUnique(d, o, h, F1, cover1, F2, cover2, t);
      assert F1 == F1[..t + 1] + [F1[t + 1]];
      assert F2 == F2[..t + 1] + [F2[t + 1]];
      assert cover1 == cover1[..t] + [cover1[t]];
      assert cover2 == cover2[..t] + [cover2[t]];
    }
  }
}
