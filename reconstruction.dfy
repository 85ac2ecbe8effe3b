/**
 * The backward pass of the solver: starting from the last period, each cover
 * period j receives the demand of the periods j..t it covers, and the walk
 * continues from j - 1 until the interval starting at period 0 is placed.
 */
module Reconstruction {
  import opened CumSum
  import opened Recurrence

  /**
   * The order quantities for periods 0..t that the cover map prescribes: the
   * schedule for 0..j-1, then the demand of j..t ordered at j = cover[t], then
   * nothing in j+1..t.
   */
  function Schedule(d: seq<int>, cover: seq<int>, t: int): (s: seq<int>)
    requires -1 <= t < |cover| <= |d|
    requires CoversBackward(cover)
    ensures |s| == t + 1
    decreases t + 1
  {
    if t < 0 then []
    else
      var j := cover[t];
      Schedule(d, cover, j - 1) + [Total(d[j..t + 1])] + Zeros(t - j)
  }

  /**
   * Writing quantity q at j into a list whose first t + 1 entries are still
   * zero leaves zeros before j, and q followed by zeros up to t.
   */
  lemma PlaceOrder(before: seq<int>, after: seq<int>, j: int, t: int, q: int)
    requires 0 <= j <= t < |before|
    requires forall k | 0 <= k <= t :: before[k] == 0
    requires after == before[j := q]
    ensures forall k | 0 <= k < j :: after[k] == 0
    ensures after[j..] == [q] + Zeros(t - j) + before[t + 1..]
  {
    var tail := [q] + Zeros(t - j) + before[t + 1..];
    assert |after[j..]| == |tail|;
    forall k | 0 <= k < |tail| ensures after[j..][k] == tail[k] {
      if 0 < k <= t - j {
        assert after[j + k] == before[j + k];
      }
    }
  }

  lemma ConcatAssociates(a: seq<int>, b: seq<int>, c: seq<int>, e: seq<int>)
    ensures a + b + c + e == a + (b + c + e)
  {
  }

  /**
   * The state of the backward walk at period t: nothing written in 0..t yet,
   * and from t + 1 on the list already agrees with the schedule for 0..T-1.
   */
  ghost predicate WalkedBackTo(d: seq<int>, cover: seq<int>, solution: seq<int>, t: int)
  {
    && -1 <= t < |cover| == |d| == |solution|
    && CoversBackward(cover)
    && (forall k | 0 <= k <= t :: solution[k] == 0)
    && Schedule(d, cover, |d| - 1) == Schedule(d, cover, t) + solution[t + 1..]
  }

  /**
   * One turn of the backward walk: placing the order of the interval that ends
   * at t moves the walk to the period before the interval's start.
   */
  lemma PlaceInterval(d: seq<int>, cover: seq<int>, before: seq<int>, t: int, j: int, q: int)
    requires WalkedBackTo(d, cover, before, t) && 0 <= t
    requires j == cover[t] && q == Total(d[j..t + 1])
    ensures 0 <= j <= t
    ensures WalkedBackTo(d, cover, before[j := q], j - 1)
  {
    PlaceOrder(before, before[j := q], j, t, q);
    ConcatAssociates(Schedule(d, cover, j - 1), [q], Zeros(t - j), before[t + 1..]);
  }

  /** The walk starts with T zeros and, once past period 0, has written the schedule. */
  lemma WalkEnds(d: seq<int>, cover: seq<int>, solution: seq<int>)
    requires 0 < |cover| == |d| && CoversBackward(cover)
    ensures WalkedBackTo(d, cover, Zeros(|d|), |d| - 1)
    ensures WalkedBackTo(d, cover, solution, -1) ==> solution == Schedule(d, cover, |d| - 1)
  {
    if WalkedBackTo(d, cover, solution, -1) {
      assert solution[0..] == solution;
    }
  }

  /** The loop of `wagner_whitin` that writes `solution` from `cover_by`. */
  method Reconstruct(d: seq<int>, cover: seq<int>) returns (solution: seq<int>)
    requires 0 < |cover| == |d|
    requires CoversBackward(cover)
    ensures solution == Schedule(d, cover, |d| - 1)
  {
    var T := |d|;
    solution := Zeros(T);
    WalkEnds(d, cover, solution);
    var t := T - 1;
    while t >= 0  // the source loops until the interval that starts at 0 is placed
      invariant WalkedBackTo(d, cover, solution, t)
      decreases t
    {
      var j := cover[t];
      var q := Total(d[j..t + 1]);
      PlaceInterval(d, cover, solution, t, j, q);
      solution := solution[j := q];
      t := j - 1;
    }
    WalkEnds(d, cover, solution);
  }

  /** The schedule orders exactly the demand of periods 0..t. */
  lemma {:induction false} ScheduleTotal(d: seq<int>, cover: seq<int>, t: int)
    requires -1 <= t < |cover| <= |d|
    requires CoversBackward(cover)
    ensures Total(Schedule(d, cover, t)) == Total(d[..t + 1])
    decreases t + 1
  {
    if t >= 0 {
      var j := cover[t];
      ScheduleTotal(d, cover, j - 1);
      TotalOfOrder(Schedule(d, cover, j - 1), Total(d[j..t + 1]), t - j);
      TotalPrefixSplit(d, j, t + 1);
    }
  }

  /** Nothing is ever short: the first k quantities cover the first k demands. */
  predicate NeverShort(d: seq<int>, sol: seq<int>)
  {
    forall k | 0 <= k <= |d| && k <= |sol| :: Total(sol[..k]) >= Total(d[..k])
  }

  /** With no negative demand, the demand of 0..t covers that of any shorter prefix 0..k-1. */
  lemma LastIntervalCovered(d: seq<int>, j: int, k: int, t: int)
    requires 0 <= j < k <= t + 1 <= |d|
    requires forall p | 0 <= p < |d| :: d[p] >= 0
    ensures Total(d[..j]) + Total(d[j..t + 1]) >= Total(d[..k])
  {
    TotalPrefixSplit(d, j, t + 1);
    PrefixTotalGrows(d, k, t + 1);
  }

  /**
   * One interval more keeps the schedule free of stock-outs: if nothing before
   * j is short and `front` orders the demand of 0..j-1, then adding the order
   * for j..t leaves nothing short up to t.
   */
  lemma FeasibleStep(d: seq<int>, front: seq<int>, s: seq<int>, j: int, t: int)
    requires 0 <= j <= t < |d| && |front| == j
    requires forall p | 0 <= p < |d| :: d[p] >= 0
    requires Total(front) == Total(d[..j]) && NeverShort(d[..j], front)
    requires s == front + [Total(d[j..t + 1])] + Zeros(t - j)
    ensures NeverShort(d[..t + 1], s)
  {
    OrderShape(front, Total(d[j..t + 1]), t - j, s);
    forall k | 0 <= k <= t + 1 ensures Total(s[..k]) >= Total(d[..t + 1][..k]) {
      assert d[..t + 1][..k] == d[..k];
      if k <= j {
        assert s[..k] == front[..k];
        assert d[..j][..k] == d[..k];
      } else {
        LastIntervalCovered(d, j, k, t);
      }
    }
  }

  /**
   * No stock-out: with non-negative demand, what has been ordered by the end of
   * any period covers the demand so far.
   */
  lemma {:induction false} ScheduleFeasible(d: seq<int>, cover: seq<int>, t: int)
    requires -1 <= t < |cover| <= |d|
    requires CoversBackward(cover)
    requires forall p | 0 <= p < |d| :: d[p] >= 0
    ensures NeverShort(d[..t + 1], Schedule(d, cover, t))
    decreases t + 1
  {
    if t >= 0 {
      var j := cover[t];
      ScheduleFeasible(d, cover, j - 1);
      ScheduleTotal(d, cover, j - 1);
      FeasibleStep(d, Schedule(d, cover, j - 1), Schedule(d, cover, t), j, t);
    }
  }

  /**
   * Every non-zero quantity sits at the start j of a covered interval j..e and
   * equals the demand of that interval.
   */
  lemma {:induction false} ScheduleOrdersAtCoverPeriods(d: seq<int>, cover: seq<int>, t: int)
    requires -1 <= t < |cover| <= |d|
    requires CoversBackward(cover)
    ensures forall k | 0 <= k <= t && Schedule(d, cover, t)[k] != 0 ::
              exists e | k <= e <= t :: cover[e] == k && Schedule(d, cover, t)[k] == Total(d[k..e + 1])
    decreases t + 1
  {
    if t >= 0 {
      var j := cover[t];
      var s := Schedule(d, cover, t);
      var front := Schedule(d, cover, j - 1);
      ScheduleOrdersAtCoverPeriods(d, cover, j - 1);
      forall k | 0 <= k <= t && s[k] != 0
        ensures exists e | k <= e <= t :: cover[e] == k && s[k] == Total(d[k..e + 1])
      {
        if k < j {
          assert s[k] == front[k];
          var e :| k <= e <= j - 1 && cover[e] == k && front[k] == Total(d[k..e + 1]);
          assert k <= e <= t;
        } else if k == j {
          assert s[k] == Total(d[j..t + 1]);
        } else {
          assert false;
        }
      }
    }
  }

  /**
   * The orders of the full schedule: none is negative, and each non-zero one
   * is the demand of the run of periods that starts where it is placed.
   */
  lemma ScheduleOrders(d: seq<int>, cover: seq<int>, s: seq<int>)
    requires |cover| == |d| && CoversBackward(cover)
    requires s == Schedule(d, cover, |d| - 1)
    requires forall p | 0 <= p < |d| :: d[p] >= 0
    ensures forall k | 0 <= k < |d| :: s[k] >= 0
    ensures forall k | 0 <= k < |d| && s[k] != 0 ::
              exists e | k < e <= |d| :: s[k] == Total(d[k..e])
  {
    var t := |d| - 1;
    ScheduleOrdersAtCoverPeriods(d, cover, t);
    forall k | 0 <= k < |d| && s[k] != 0
      ensures s[k] >= 0 && exists e | k < e <= |d| :: s[k] == Total(d[k..e])
    {
      var e :| k <= e <= t && cover[e] == k && s[k] == Total(d[k..e + 1]);
      RunDemand(d, k, e, s[k]);
    }
  }

  /** The demand of a run k..e is not negative and is the demand of k up to an end past k. */
  lemma RunDemand(d: seq<int>, k: int, e: int, v: int)
    requires 0 <= k <= e < |d|
    requires forall p | 0 <= p < |d| :: d[p] >= 0
    requires v == Total(d[k..e + 1])
    ensures v >= 0 && exists e' | k < e' <= |d| :: v == Total(d[k..e'])
  {
    TotalGrows(d, k, k, e + 1);
    assert v == Total(d[k..e + 1]);
  }

  /**
   * The full schedule: the total demand ordered, never a stock-out, no
   * negative order, and each order is the demand of the run of periods that
   * starts where it is placed.
   */
  lemma ScheduleShape(d: seq<int>, cover: seq<int>, s: seq<int>)
    requires |cover| == |d| && CoversBackward(cover)
    requires s == Schedule(d, cover, |d| - 1)
    requires forall p | 0 <= p < |d| :: d[p] >= 0
    ensures Total(s) == Total(d)
    ensures NeverShort(d, s)
    ensures forall k | 0 <= k < |d| :: s[k] >= 0
    ensures forall k | 0 <= k < |d| && s[k] != 0 ::
              exists e | k < e <= |d| :: s[k] == Total(d[k..e])
  {
    var t := |d| - 1;
    ScheduleTotal(d, cover, t);
    ScheduleFeasible(d, cover, t);
    assert d[..t + 1] == d;
    ScheduleOrders(d, cover, s);
  }
}
