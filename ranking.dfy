/** Ordering candidates by their distance from the user's rating. The runtime's
    array sort is stable, so the order is specified as a stable sort: the result is
    non-decreasing in `diff`, and the candidates that share one `diff` value keep
    the order they had in the input. */
module Ranking {
  import opened Domain

  ghost predicate SortedByDiff(cs: seq<Candidate>)
  {
    forall i, j :: 0 <= i < j < |cs| ==> cs[i].diff <= cs[j].diff
  }

  /** The candidates of `cs` whose distance is `d`, in their order in `cs`. */
  function WithDiff(cs: seq<Candidate>, d: nat): (r: seq<Candidate>)
    ensures |r| <= |cs|
  {
    if cs == [] then []
    else (if cs[0].diff == d then [cs[0]] else []) + WithDiff(cs[1..], d)
  }

  /** `out` is the stable sort of `inp` by distance. */
  ghost predicate IsStableSortOf(out: seq<Candidate>, inp: seq<Candidate>)
  {
    SortedByDiff(out) && forall d: nat :: WithDiff(out, d) == WithDiff(inp, d)
  }

  /** Inserts `c` in front of the first element whose distance is not below its own. */
  function InsertByDiff(c: Candidate, s: seq<Candidate>): seq<Candidate>
  {
    if s == [] then [c]
    else if c.diff <= s[0].diff then [c] + s
    else [s[0]] + InsertByDiff(c, s[1..])
  }

  /** Insertion sort: each element goes in front of the later elements of equal distance. */
  function SortByDiff(cs: seq<Candidate>): (r: seq<Candidate>)
    ensures SortedByDiff(r)
    ensures multiset(r) == multiset(cs) && |r| == |cs|
  {
    if cs == [] then []
    else
      var rest := SortByDiff(cs[1..]);
      InsertSorted(cs[0], rest);
      InsertPermutes(cs[0], rest);
      assert cs == [cs[0]] + cs[1..];
      InsertByDiff(cs[0], rest)
  }

  lemma {:induction false} WithDiffConcat(a: seq<Candidate>, b: seq<Candidate>, d: nat)
    ensures WithDiff(a + b, d) == WithDiff(a, d) + WithDiff(b, d)
  {
    if a == [] {
      assert a + b == b;
    } else {
      var h := if a[0].diff == d then [a[0]] else [];
      assert (a + b)[0] == a[0];
      assert (a + b)[1..] == a[1..] + b;
      WithDiffConcat(a[1..], b, d);
      calc {
        WithDiff(a + b, d);
        h + WithDiff(a[1..] + b, d);
        h + (WithDiff(a[1..], d) + WithDiff(b, d));
        (h + WithDiff(a[1..], d)) + WithDiff(b, d);
      }
    }
  }

  /** Inserting adds exactly `c`. */
  lemma {:induction false} InsertPermutes(c: Candidate, s: seq<Candidate>)
    ensures multiset(InsertByDiff(c, s)) == multiset(s) + multiset{c}
    ensures |InsertByDiff(c, s)| == |s| + 1
  {
    if s != [] && c.diff > s[0].diff {
      InsertPermutes(c, s[1..]);
      assert s == [s[0]] + s[1..];
    }
  }

  lemma {:induction false} InsertSorted(c: Candidate, s: seq<Candidate>)
    requires SortedByDiff(s)
    ensures SortedByDiff(InsertByDiff(c, s))
  {
    if s != [] && c.diff > s[0].diff {
      var r := InsertByDiff(c, s[1..]);
      InsertSorted(c, s[1..]);
      InsertPermutes(c, s[1..]);
      forall y | y in r ensures s[0].diff <= y.diff {
        assert y in multiset(r);
        if y != c {
          assert y in multiset(s[1..]);
          var k :| 0 <= k < |s[1..]| && s[1..][k] == y;
          assert s[k + 1] == y;
        }
      }
      assert InsertByDiff(c, s) == [s[0]] + r;
      forall i, j | 0 <= i < j < |[s[0]] + r| ensures ([s[0]] + r)[i].diff <= ([s[0]] + r)[j].diff {
        if i == 0 {
          assert r[j - 1] in r;
        }
      }
    }
  }

  lemma {:induction false} InsertWithDiff(c: Candidate, s: seq<Candidate>, d: nat)
    ensures WithDiff(InsertByDiff(c, s), d) == WithDiff([c] + s, d)
  {
    if s != [] && c.diff > s[0].diff {
      InsertWithDiff(c, s[1..], d);
      var r := InsertByDiff(c, s[1..]);
      assert InsertByDiff(c, s) == [s[0]] + r;
      WithDiffConcat([s[0]], r, d);
      WithDiffConcat([c], s[1..], d);
      WithDiffConcat([c], s, d);
      assert s == [s[0]] + s[1..];
      WithDiffConcat([s[0]], s[1..], d);
    }
  }

  /** The insertion sort is a stable sort, and a permutation of its input. */
  lemma {:induction false} SortByDiffIsStable(cs: seq<Candidate>)
    ensures IsStableSortOf(SortByDiff(cs), cs)
    ensures multiset(SortByDiff(cs)) == multiset(cs)
    ensures |SortByDiff(cs)| == |cs|
  {
    if cs != [] {
      SortByDiffIsStable(cs[1..]);
      InsertSorted(cs[0], SortByDiff(cs[1..]));
      InsertPermutes(cs[0], SortByDiff(cs[1..]));
      assert cs == [cs[0]] + cs[1..];
      forall d: nat ensures WithDiff(SortByDiff(cs), d) == WithDiff(cs, d) {
        InsertWithDiff(cs[0], SortByDiff(cs[1..]), d);
        WithDiffConcat([cs[0]], SortByDiff(cs[1..]), d);
        WithDiffConcat([cs[0]], cs[1..], d);
      }
    }
  }

  lemma {:induction false} WithDiffMember(cs: seq<Candidate>, x: Candidate)
    requires x in cs
    ensures x in WithDiff(cs, x.diff)
  {
    if cs[0] != x {
      WithDiffMember(cs[1..], x);
    }
  }

  lemma {:induction false} WithDiffHas(cs: seq<Candidate>, d: nat, x: Candidate)
    requires x in WithDiff(cs, d)
    ensures x in cs && x.diff == d
  {
    if cs != [] && !(cs[0].diff == d && x == cs[0]) {
      WithDiffHas(cs[1..], d, x);
    }
  }

  /** The first element of a sorted sequence has the least distance. */
  lemma SortedHeadLeast(s: seq<Candidate>, x: Candidate)
    requires SortedByDiff(s) && x in s
    ensures s[0].diff <= x.diff
  {
  }

  /** A stable sort is determined by its input: any two coincide. */
  lemma {:induction false} StableSortUnique(a: seq<Candidate>, b: seq<Candidate>, inp: seq<Candidate>)
    requires IsStableSortOf(a, inp) && IsStableSortOf(b, inp)
    ensures a == b
  {
    if a == [] {
      if b != [] {
        WithDiffMember(b, b[0]);
      }
    } else if b == [] {
      WithDiffMember(a, a[0]);
    } else {
      var d, e := a[0].diff, b[0].diff;
      WithDiffMember(a, a[0]);
      WithDiffMember(b, b[0]);
      assert WithDiff(a, d) == WithDiff(b, d) && WithDiff(a, e) == WithDiff(b, e);
      WithDiffHas(b, d, a[0]);
      WithDiffHas(a, e, b[0]);
      SortedHeadLeast(b, a[0]);
      SortedHeadLeast(a, b[0]);
      assert d == e;
      assert WithDiff(a, d)[0] == a[0] && WithDiff(b, d)[0] == b[0];
      var a', b' := a[1..], b[1..];
      forall k: nat ensures WithDiff(a', k) == WithDiff(b', k) {
        assert WithDiff(a, k) == WithDiff(inp, k) == WithDiff(b, k);
        if k == d {
          assert WithDiff(a', k) == WithDiff(a, k)[1..];
          assert WithDiff(b', k) == WithDiff(b, k)[1..];
        } else {
          assert WithDiff(a', k) == WithDiff(a, k);
          assert WithDiff(b', k) == WithDiff(b, k);
        }
      }
      assert IsStableSortOf(b', a');
      assert IsStableSortOf(a', a');
      StableSortUnique(a', b', a');
      assert a == [a[0]] + a' && b == [b[0]] + b';
    }
  }

  /** Every stable sort of `cs` is the one the insertion sort computes. */
  lemma StableSortIsSortByDiff(cs: seq<Candidate>, s: seq<Candidate>)
    requires IsStableSortOf(s, cs)
    ensures s == SortByDiff(cs)
  {
    SortByDiffIsStable(cs);
    StableSortUnique(s, SortByDiff(cs), cs);
  }
}
