/**
 * Prefix sums over the demand series: the `CumSumList` helper of the solver,
 * which answers "sum of elements i..j inclusive" from a table of running totals.
 */
module CumSum {
  import opened Outcomes

  /** The sum of `s`, peeled from the back the way a running total grows. */
  function Total(s: seq<int>): int
  {
    if s == [] then 0 else Total(s[..|s| - 1]) + s[|s| - 1]
  }

  lemma {:induction false} TotalConcat(a: seq<int>, b: seq<int>)
    ensures Total(a + b) == Total(a) + Total(b)
    decreases |b|
  {
    if b == [] {
      assert a + b == a;
    } else {
      assert (a + b)[..|a + b| - 1] == a + b[..|b| - 1];
      TotalConcat(a, b[..|b| - 1]);
    }
  }

  /** A range sum splits at any point inside the range. */
  lemma TotalSplit(s: seq<int>, i: int, k: int, j: int)
    requires 0 <= i <= k <= j <= |s|
    ensures Total(s[i..j]) == Total(s[i..k]) + Total(s[k..j])
  {
    assert s[i..j] == s[i..k] + s[k..j];
    TotalConcat(s[i..k], s[k..j]);
  }

  /** A prefix sum splits at any point inside the prefix. */
  lemma TotalPrefixSplit(s: seq<int>, k: int, j: int)
    requires 0 <= k <= j <= |s|
    ensures Total(s[..j]) == Total(s[..k]) + Total(s[k..j])
  {
    TotalSplit(s, 0, k, j);
    assert s[..j] == s[0..j] && s[..k] == s[0..k];
  }

  /** Over non-negative elements a longer range never sums to less. */
  lemma {:induction false} TotalGrows(s: seq<int>, i: int, k: int, j: int)
    requires 0 <= i <= k <= j <= |s|
    requires forall p | 0 <= p < |s| :: s[p] >= 0
    ensures Total(s[i..k]) <= Total(s[i..j])
    ensures Total(s[k..j]) >= 0
    decreases j - k
  {
    if k < j {
      TotalGrows(s, i, k, j - 1);
      assert s[k..j][..j - 1 - k] == s[k..j - 1];
      assert s[i..j][..j - 1 - i] == s[i..j - 1];
    }
  }

  /** Over non-negative elements a longer prefix never sums to less. */
  lemma PrefixTotalGrows(s: seq<int>, k: int, j: int)
    requires 0 <= k <= j <= |s|
    requires forall p | 0 <= p < |s| :: s[p] >= 0
    ensures Total(s[..k]) <= Total(s[..j])
  {
    TotalGrows(s, 0, k, j);
    assert s[..j] == s[0..j] && s[..k] == s[0..k];
  }

  /** `n` zero entries: the untouched part of the `[0] * T` solution list. */
  function Zeros(n: nat): (z: seq<int>)
    ensures |z| == n
    ensures forall k | 0 <= k < n :: z[k] == 0
    ensures Total(z) == 0
  {
    if n == 0 then [] else
      var z := Zeros(n - 1) + [0];
      assert z[..n - 1] == Zeros(n - 1);
      z
  }

  /** A list ending in one order q and n zeros sums to what precedes it plus q. */
  lemma TotalOfOrder(front: seq<int>, q: int, n: nat)
    ensures Total(front + [q] + Zeros(n)) == Total(front) + q
  {
    TotalConcat(front, [q]);
    TotalConcat(front + [q], Zeros(n));
    assert [q][..0] == [];
  }

  /** The first k entries of such a list, k past the order, sum to what precedes it plus q. */
  lemma TotalOfOrderPrefix(front: seq<int>, q: int, n: nat, k: int)
    requires |front| < k <= |front| + 1 + n
    ensures Total((front + [q] + Zeros(n))[..k]) == Total(front) + q
  {
    var m := k - |front| - 1;
    var s := front + [q] + Zeros(n);
    assert s[..k] == front + [q] + Zeros(m);
    TotalOfOrder(front, q, m);
  }

  /**
   * What a list made of `front`, one order q and n zeros looks like: it agrees
   * with `front` up to the order, holds q there and zeros after it, and every
   * prefix that reaches the order sums to the total of `front` plus q.
   */
  lemma OrderShape(front: seq<int>, q: int, n: nat, s: seq<int>)
    requires s == front + [q] + Zeros(n)
    ensures |s| == |front| + 1 + n
    ensures forall k | 0 <= k <= |front| :: s[..k] == front[..k]
    ensures forall p | |front| <= p < |s| :: s[p] == if p == |front| then q else 0
    ensures forall k | |front| < k <= |s| :: Total(s[..k]) == Total(front) + q
  {
    forall p | |front| < p < |s| ensures s[p] == 0 {
      assert s[p] == Zeros(n)[p - |front| - 1];
    }
    forall k | |front| < k <= |s| ensures Total(s[..k]) == Total(front) + q {
      TotalOfOrderPrefix(front, q, n, k);
    }
  }

  /** The running-total table of a series (wagner_whitin.py and its copy in app.py). */
  class CumSumList {
    ghost const elements: seq<int>
    const cumsums: array<int>

    ghost predicate Valid()
      reads this, cumsums
    {
      && cumsums.Length == |elements|
      && forall i | 0 <= i < |elements| :: cumsums[i] == Total(elements[..i + 1])
    }

    /** Fills `cumsums[i]` with `elements[0] + ... + elements[i]` in one pass. */
    constructor (elements: seq<int>)
      ensures this.elements == elements
      ensures Valid()
      ensures fresh(cumsums)
    {
      var sums := new int[|elements|](_ => 0);
      var partialSum := 0;
      for i := 0 to |elements|
        invariant partialSum == Total(elements[..i])
        invariant forall k | 0 <= k < i :: sums[k] == Total(elements[..k + 1])
      {
        partialSum := partialSum + elements[i];
        assert elements[..i + 1][..i] == elements[..i];
        sums[i] := partialSum;
      }
      this.elements := elements;
      cumsums := sums;
    }

    /**
     * `elements[i] + ... + elements[j]`: zero for an empty range (i > j), and a
     * `j` past the end is clamped to the last index.  A non-empty range needs a
     * non-empty table, `0 <= j` and `i - 1` inside the table, or the source's
     * list indexing fails or wraps around.
     */
    function SumBetween(i: int, j: int): (r: int)
      reads this, cumsums
      requires Valid()
      requires i <= j ==> 0 <= j && 0 < |elements| && i <= |elements|
      ensures i > j ==> r == 0
      ensures i <= j ==> r == Total(elements[Max(i, 0)..Min(j + 1, |elements|)])
    {
      if i > j then 0
      else
        var top := if j < cumsums.Length then cumsums[j] else cumsums[cumsums.Length - 1];
        var low := if i >= 1 then cumsums[i - 1] else 0;
        assert elements[..Max(i, 0)] == elements[0..Max(i, 0)];
        assert elements[..Min(j + 1, |elements|)] == elements[0..Min(j + 1, |elements|)];
        assert i <= 0 ==> elements[..0] == [];
        TotalSplit(elements, 0, Max(i, 0), Min(j + 1, |elements|));
        top - low
    }
  }
}
