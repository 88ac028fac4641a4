/** Which problems a user has solved, derived from the submission feed. */
module SolvedSet {
  import opened Domain

  /** The ids of the accepted submissions, in feed order: the feed filtered to
      verdict "AC" and mapped to problem ids. */
  function AcceptedIds(subs: seq<Submission>): (ids: seq<string>)
    ensures |ids| <= |subs|
    ensures forall id :: id in ids ==> exists s :: s in subs && s.problemId == id && s.result == Accepted
  {
    if subs == [] then []
    else (if subs[0].result == Accepted then [subs[0].problemId] else []) + AcceptedIds(subs[1..])
  }

  /** True when some submission for `id` has verdict "AC". */
  ghost predicate SolvedIn(subs: seq<Submission>, id: string)
  {
    exists i :: 0 <= i < |subs| && subs[i].problemId == id && subs[i].result == Accepted
  }

  lemma {:induction false} AcceptedIdsMembers(subs: seq<Submission>, id: string)
    ensures id in AcceptedIds(subs) <==> SolvedIn(subs, id)
  {
    if subs != [] {
      AcceptedIdsMembers(subs[1..], id);
      var head := if subs[0].result == Accepted then [subs[0].problemId] else [];
      assert AcceptedIds(subs) == head + AcceptedIds(subs[1..]);
      if SolvedIn(subs, id) {
        var i :| 0 <= i < |subs| && subs[i].problemId == id && subs[i].result == Accepted;
        if i > 0 {
          assert subs[1..][i - 1] == subs[i];
        }
      }
      if SolvedIn(subs[1..], id) {
        var i :| 0 <= i < |subs[1..]| && subs[1..][i].problemId == id && subs[1..][i].result == Accepted;
        assert subs[i + 1] == subs[1..][i];
      }
    }
  }

  /** The set of solved problem ids: an id is in it exactly when some submission
      for that id was accepted, however many rejected attempts there were. */
  function SolvedProblemIds(subs: seq<Submission>): (solved: set<string>)
    ensures forall id :: id in solved <==> SolvedIn(subs, id)
    ensures subs == [] ==> solved == {}
  {
    var ids := AcceptedIds(subs);
    assert forall id :: id in ids <==> SolvedIn(subs, id) by {
      forall id ensures id in ids <==> SolvedIn(subs, id) {
        AcceptedIdsMembers(subs, id);
      }
    }
    set id | id in ids
  }

  /** Fetching the feed in pages and joining them gives the union of the solved
      sets of the pages, so the page boundaries do not matter. */
  lemma SolvedOfConcat(a: seq<Submission>, b: seq<Submission>)
    ensures SolvedProblemIds(a + b) == SolvedProblemIds(a) + SolvedProblemIds(b)
  {
    forall id ensures SolvedIn(a + b, id) <==> SolvedIn(a, id) || SolvedIn(b, id) {
      if SolvedIn(a + b, id) {
        var i :| 0 <= i < |a + b| && (a + b)[i].problemId == id && (a + b)[i].result == Accepted;
        if i >= |a| {
          assert b[i - |a|] == (a + b)[i];
        }
      }
      if SolvedIn(b, id) {
        var i :| 0 <= i < |b| && b[i].problemId == id && b[i].result == Accepted;
        assert (a + b)[|a| + i] == b[i];
      }
      if SolvedIn(a, id) {
        var i :| 0 <= i < |a| && a[i].problemId == id && a[i].result == Accepted;
        assert (a + b)[i] == a[i];
      }
    }
  }

  /** The solved set depends only on which submissions there are, not on their order. */
  lemma SolvedOrderIndependent(a: seq<Submission>, b: seq<Submission>)
    requires multiset(a) == multiset(b)
    ensures SolvedProblemIds(a) == SolvedProblemIds(b)
  {
    forall id ensures SolvedIn(a, id) ==> SolvedIn(b, id) {
      if SolvedIn(a, id) {
        var i :| 0 <= i < |a| && a[i].problemId == id && a[i].result == Accepted;
        assert a[i] in multiset(b);
        var j :| 0 <= j < |b| && b[j] == a[i];
      }
    }
    forall id ensures SolvedIn(b, id) ==> SolvedIn(a, id) {
      if SolvedIn(b, id) {
        var i :| 0 <= i < |b| && b[i].problemId == id && b[i].result == Accepted;
        assert b[i] in multiset(a);
        var j :| 0 <= j < |a| && a[j] == b[i];
      }
    }
  }
}
