/** Picking the problem to present: a uniformly drawn index among the first
    three candidates (fewer when the pool is smaller). */
module Selector {
  import opened Domain
  import opened Ranking

  const RandomSelectionSize: nat := 3

  /** floor(u * k) for a draw `u` in [0, 1) and a slice size `k` of 1, 2 or 3. */
  function SelectionIndex(u: real, k: nat): (i: nat)
    requires 0.0 <= u < 1.0 && 1 <= k <= RandomSelectionSize
    ensures i < k
    ensures i as real <= u * k as real < i as real + 1.0
  {
    var x := u * k as real;
    assert 0.0 <= x < k as real by {
      if k == 1 {
        assert x == u;
      } else if k == 2 {
        assert k as real == 2.0;
        assert x == u + u;
      } else {
        assert k as real == 3.0;
        assert x == u + u + u;
      }
    }
    x.Floor
  }

  /** The selected candidate: the one at index floor(u * min(3, n)). The caller
      only calls this on a non-empty pool. */
  function SelectRandomProblem(candidates: seq<Candidate>, u: real): (c: Candidate)
    requires |candidates| > 0 && 0.0 <= u < 1.0
    ensures c in candidates[..Min(RandomSelectionSize, |candidates|)]
    ensures |candidates| == 1 ==> c == candidates[0]
  {
    candidates[SelectionIndex(u, Min(RandomSelectionSize, |candidates|))]
  }

  /** Each of the first `min(3, n)` candidates is chosen by some draw, so the
      selection covers exactly that slice. */
  lemma EveryTopCandidateReachable(candidates: seq<Candidate>, i: nat)
    requires i < Min(RandomSelectionSize, |candidates|)
    ensures var u := i as real / Min(RandomSelectionSize, |candidates|) as real;
            0.0 <= u < 1.0 && SelectRandomProblem(candidates, u) == candidates[i]
  {
    var k := Min(RandomSelectionSize, |candidates|);
    var u := i as real / k as real;
    assert u * k as real == i as real;
    assert u < 1.0 by {
      assert i as real < k as real;
    }
  }

  /** In a pool sorted by distance, the chosen candidate is no farther from the
      rating than any candidate outside the first three. */
  lemma SelectedIsAmongClosest(candidates: seq<Candidate>, u: real, j: nat)
    requires |candidates| > 0 && 0.0 <= u < 1.0
    requires SortedByDiff(candidates)
    requires RandomSelectionSize <= j < |candidates|
    ensures SelectRandomProblem(candidates, u).diff <= candidates[j].diff
  {
    var i := SelectionIndex(u, Min(RandomSelectionSize, |candidates|));
    assert SelectRandomProblem(candidates, u) == candidates[i];
  }
}
