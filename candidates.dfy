/** The candidate pool: the unsolved, rated, non-experimental problems of the
    catalog, each with its distance from the user's rating, the closest first,
    at most ten of them. */
module CandidateFilter {
  import opened Domain
  import opened Ranking

  const CandidatePoolSize: nat := 10

  /** The catalog's difficulty is a usable number: present and non-zero (a zero
      difficulty is falsy and dropped like a missing one). */
  predicate HasDifficulty(m: ProblemModel)
  {
    m.difficulty.Some? && m.difficulty.value != 0
  }

  /** A missing flag counts as not experimental. */
  predicate Experimental(m: ProblemModel)
  {
    m.isExperimental == Some(true)
  }

  predicate Eligible(p: Problem, models: map<string, ProblemModel>, solved: set<string>)
  {
    p.id !in solved && p.id in models && HasDifficulty(models[p.id]) && !Experimental(models[p.id])
  }

  function Distance(m: ProblemModel, rating: int): nat
    requires m.difficulty.Some?
  {
    Abs(m.difficulty.value - rating)
  }

  /** `c` is a problem of the catalog that passes every exclusion rule, unchanged,
      with its distance attached. */
  ghost predicate IsCandidateOf(c: Candidate, problems: seq<Problem>, models: map<string, ProblemModel>,
                                solved: set<string>, rating: int)
  {
    c.problem in problems && Eligible(c.problem, models, solved)
    && c.diff == Distance(models[c.problem.id], rating)
  }

  /** The filter and map steps: the eligible problems in catalog order, each with its distance. */
  function EligibleCandidates(problems: seq<Problem>, models: map<string, ProblemModel>,
                              solved: set<string>, rating: int): (pool: seq<Candidate>)
    ensures |pool| <= |problems|
    ensures forall c :: c in pool ==> IsCandidateOf(c, problems, models, solved, rating)
  {
    if problems == [] then []
    else
      var p := problems[0];
      var rest := EligibleCandidates(problems[1..], models, solved, rating);
      assert forall c :: c in rest ==> c.problem in problems by {
        forall c | c in rest ensures c.problem in problems {
          var k :| 0 <= k < |problems[1..]| && problems[1..][k] == c.problem;
          assert problems[k + 1] == c.problem;
        }
      }
      if Eligible(p, models, solved) then [Candidate(p, Distance(models[p.id], rating))] + rest
      else rest
  }

  /** The filter and map steps keep catalog order: they work element by element,
      so a split catalog gives the two results joined. */
  lemma {:induction false} EligibleCandidatesConcat(a: seq<Problem>, b: seq<Problem>, models: map<string, ProblemModel>,
                                                    solved: set<string>, rating: int)
    ensures EligibleCandidates(a + b, models, solved, rating)
            == EligibleCandidates(a, models, solved, rating) + EligibleCandidates(b, models, solved, rating)
  {
    if a == [] {
      assert a + b == b;
    } else {
      assert (a + b)[0] == a[0];
      assert (a + b)[1..] == a[1..] + b;
      EligibleCandidatesConcat(a[1..], b, models, solved, rating);
    }
  }

  /** No eligible problem is lost by the filter and map steps. */
  lemma {:induction false} EligibleCandidatesComplete(problems: seq<Problem>, models: map<string, ProblemModel>,
                                                      solved: set<string>, rating: int, p: Problem)
    requires p in problems && Eligible(p, models, solved)
    ensures Candidate(p, Distance(models[p.id], rating)) in EligibleCandidates(problems, models, solved, rating)
  {
    if problems[0] != p {
      assert p in problems[1..];
      EligibleCandidatesComplete(problems[1..], models, solved, rating, p);
    }
  }

  /** The pool handed to the selector: the first `min(10, eligible)` elements of the
      stable sort of the eligible candidates by distance. */
  function FilterCandidates(problems: seq<Problem>, models: map<string, ProblemModel>,
                            solved: set<string>, rating: int): (r: seq<Candidate>)
    ensures |r| == Min(CandidatePoolSize, |EligibleCandidates(problems, models, solved, rating)|)
    ensures forall c :: c in r ==> IsCandidateOf(c, problems, models, solved, rating)
    ensures SortedByDiff(r)
    ensures forall s :: IsStableSortOf(s, EligibleCandidates(problems, models, solved, rating)) ==> |r| <= |s| && r == s[..|r|]
  {
    var pool := EligibleCandidates(problems, models, solved, rating);
    var sorted := SortByDiff(pool);
    SortByDiffIsStable(pool);
    assert forall s :: IsStableSortOf(s, pool) ==> s == sorted by {
      forall s | IsStableSortOf(s, pool) ensures s == sorted {
        StableSortIsSortByDiff(pool, s);
      }
    }
    var k := Min(CandidatePoolSize, |pool|);
    assert forall c :: c in sorted[..k] ==> c in pool by {
      forall c | c in sorted[..k] ensures c in pool {
        assert c in multiset(sorted);
      }
    }
    sorted[..k]
  }

  /** With at most ten eligible problems, every one of them is offered. */
  lemma AllEligibleKeptWhenFew(problems: seq<Problem>, models: map<string, ProblemModel>,
                               solved: set<string>, rating: int, p: Problem)
    requires |EligibleCandidates(problems, models, solved, rating)| <= CandidatePoolSize
    requires p in problems && Eligible(p, models, solved)
    ensures Candidate(p, Distance(models[p.id], rating)) in FilterCandidates(problems, models, solved, rating)
  {
    var pool := EligibleCandidates(problems, models, solved, rating);
    EligibleCandidatesComplete(problems, models, solved, rating, p);
    SortByDiffIsStable(pool);
    assert FilterCandidates(problems, models, solved, rating) == SortByDiff(pool);
    assert Candidate(p, Distance(models[p.id], rating)) in multiset(SortByDiff(pool));
  }

  /** The pool keeps the closest problems: an eligible candidate that was cut off
      is at least as far from the rating as every candidate that was kept. */
  lemma SkippedAreNoCloser(problems: seq<Problem>, models: map<string, ProblemModel>,
                           solved: set<string>, rating: int, c: Candidate)
    ensures c in EligibleCandidates(problems, models, solved, rating) && c !in FilterCandidates(problems, models, solved, rating)
            ==> forall x :: x in FilterCandidates(problems, models, solved, rating) ==> x.diff <= c.diff
  {
    if c !in EligibleCandidates(problems, models, solved, rating) || c in FilterCandidates(problems, models, solved, rating) {
      return;
    }
    var pool := EligibleCandidates(problems, models, solved, rating);
    var sorted := SortByDiff(pool);
    var r := FilterCandidates(problems, models, solved, rating);
    SortByDiffIsStable(pool);
    assert r == sorted[..|r|];
    assert c in multiset(sorted);
    var j :| 0 <= j < |sorted| && sorted[j] == c;
    assert j >= |r|;
    forall x | x in r ensures x.diff <= c.diff {
      var i :| 0 <= i < |r| && r[i] == x;
      assert sorted[i] == x;
    }
  }
}
