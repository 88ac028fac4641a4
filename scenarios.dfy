/** A worked case of the whole ranking step: a user who solved "abc1" and is
    rated 1000 is offered "abc2", and only it. */
module Scenarios {
  import opened Domain
  import opened SolvedSet
  import opened CandidateFilter
  import opened Selector

  lemma SolvedProblemIsNotOffered(u: real)
    requires 0.0 <= u < 1.0
    ensures var submissions := [Submission("abc1", "AC", 1000)];
            var a := Problem("abc1", "abc001", "Task A");
            var b := Problem("abc2", "abc002", "Task B");
            var models := map["abc1" := ProblemModel(Some(800), None),
                              "abc2" := ProblemModel(Some(1200), Some(false))];
            var candidates := FilterCandidates([a, b], models, SolvedProblemIds(submissions), 1000);
            && candidates == [Candidate(b, 200)]
            && SelectRandomProblem(candidates, u).problem == b
  {
    var submissions := [Submission("abc1", "AC", 1000)];
    var a := Problem("abc1", "abc001", "Task A");
    var b := Problem("abc2", "abc002", "Task B");
    var models := map["abc1" := ProblemModel(Some(800), None),
                      "abc2" := ProblemModel(Some(1200), Some(false))];
    var solved := SolvedProblemIds(submissions);
    assert SolvedIn(submissions, "abc1");
    assert "abc1" in solved;
    assert !SolvedIn(submissions, "abc2");
    assert EligibleCandidates([a, b], models, solved, 1000) == [Candidate(b, 200)] by {
      assert [a, b][1..] == [b];
      assert EligibleCandidates([b], models, solved, 1000) == [Candidate(b, 200)];
    }
  }
}
