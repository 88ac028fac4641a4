/** The panel indicator's recommendation cycle: read the settings, fetch the
    rating page, the submission feed and the two catalogs, rank the candidates,
    pick one, and show the outcome through the panel icon and the menu. */
module Recommender {
  import opened Domain
  import opened SolvedSet
  import opened Ranking
  import opened CandidateFilter
  import opened Selector
  import opened Pagination
  import opened ExclusionWindow
  import opened RatingExtractor

  /** The two settings the indicator reads: the user handle and the index of the
      exclusion window. */
  datatype Config = Config(username: string, excludeFilter: int)

  predicate ValidConfig(config: Config)
  {
    0 <= config.excludeFilter < |DayMap|
  }

  /** The four concurrent requests, taken together. `Failure` is a failed rating
      page or catalog request (or an undecodable answer); the submission feed is
      given as its page source, whose requests may fail one by one. */
  datatype FetchOutcome =
    | Failure
    | Success(ratingCapture: Option<string>, pages: PageSource,
              problems: seq<Problem>, models: map<string, ProblemModel>)

  ghost predicate WellFormed(outcome: FetchOutcome, horizon: int)
  {
    outcome.Success? ==>
      && (outcome.ratingCapture.Some? ==> IsDigitString(outcome.ratingCapture.value))
      && FiniteSource(outcome.pages, horizon)
  }

  function FromSecondFor(config: Config, nowMs: int): int
    requires ValidConfig(config)
  {
    CalculateFromSecond(ExcludeDaysFromFilter(config.excludeFilter), nowMs)
  }

  /** The ranked pool for a successful fetch whose feed read gave `submissions`. */
  function CandidatesFor(outcome: FetchOutcome, submissions: seq<Submission>): seq<Candidate>
    requires outcome.Success? && (outcome.ratingCapture.Some? ==> IsDigitString(outcome.ratingCapture.value))
  {
    FilterCandidates(outcome.problems, outcome.models, SolvedProblemIds(submissions), ParseRating(outcome.ratingCapture))
  }

  /** The submission feed as read by one cycle: None when any request failed. */
  ghost function SubmissionsRead(config: Config, outcome: FetchOutcome, nowMs: int, horizon: int): Option<seq<Submission>>
    requires ValidConfig(config) && WellFormed(outcome, horizon)
  {
    if outcome.Failure? then None else Paginate(outcome.pages, FromSecondFor(config, nowMs), horizon)
  }

  /** What one cycle decides: None for an error; Some(p) for the problem to
      present, p being None when no candidate is left. */
  ghost function Recommend(config: Config, outcome: FetchOutcome, u: real, nowMs: int, horizon: int): Option<Option<Problem>>
    requires ValidConfig(config) && WellFormed(outcome, horizon) && 0.0 <= u < 1.0
  {
    match SubmissionsRead(config, outcome, nowMs, horizon)
    case None => None
    case Some(submissions) =>
      var candidates := CandidatesFor(outcome, submissions);
      if |candidates| > 0 then Some(Some(SelectRandomProblem(candidates, u).problem)) else Some(None)
  }

  /** A recommended problem is in the catalog, unsolved, rated, not experimental,
      and one of the three closest candidates. */
  lemma RecommendedProblemQualifies(config: Config, outcome: FetchOutcome, u: real, nowMs: int, horizon: int, p: Problem)
    requires ValidConfig(config) && WellFormed(outcome, horizon) && 0.0 <= u < 1.0
    ensures Recommend(config, outcome, u, nowMs, horizon) == Some(Some(p)) ==>
              && outcome.Success? && SubmissionsRead(config, outcome, nowMs, horizon).Some?
              && var solved := SolvedProblemIds(SubmissionsRead(config, outcome, nowMs, horizon).value);
                 var candidates := CandidatesFor(outcome, SubmissionsRead(config, outcome, nowMs, horizon).value);
                 && p in outcome.problems && p.id !in solved && Eligible(p, outcome.models, solved)
                 && exists i :: 0 <= i < Min(RandomSelectionSize, |candidates|) && candidates[i].problem == p
  {
    if Recommend(config, outcome, u, nowMs, horizon) != Some(Some(p)) {
      return;
    }
    var read := SubmissionsRead(config, outcome, nowMs, horizon);
    assert read.Some?;
    var candidates := CandidatesFor(outcome, read.value);
    assert |candidates| > 0;
    var c := SelectRandomProblem(candidates, u);
    assert c.problem == p;
    var k := Min(RandomSelectionSize, |candidates|);
    assert c in candidates[..k];
    var i :| 0 <= i < k && candidates[..k][i] == c;
    assert candidates[i] == c;
    assert c in candidates;
  }

  /** A successful cycle ends idle exactly when no problem of the catalog passes
      the exclusion rules. */
  lemma IdleExactlyWhenNothingEligible(config: Config, outcome: FetchOutcome, u: real, nowMs: int, horizon: int)
    requires ValidConfig(config) && WellFormed(outcome, horizon) && 0.0 <= u < 1.0
    requires SubmissionsRead(config, outcome, nowMs, horizon).Some?
    ensures var solved := SolvedProblemIds(SubmissionsRead(config, outcome, nowMs, horizon).value);
            Recommend(config, outcome, u, nowMs, horizon) == Some(None) <==>
              forall p :: p in outcome.problems ==> !Eligible(p, outcome.models, solved)
  {
    var submissions := SubmissionsRead(config, outcome, nowMs, horizon).value;
    var solved := SolvedProblemIds(submissions);
    var rating := ParseRating(outcome.ratingCapture);
    var pool := EligibleCandidates(outcome.problems, outcome.models, solved, rating);
    forall p | p in outcome.problems && Eligible(p, outcome.models, solved)
      ensures |pool| > 0
    {
      EligibleCandidatesComplete(outcome.problems, outcome.models, solved, rating, p);
    }
    if |pool| > 0 {
      assert IsCandidateOf(pool[0], outcome.problems, outcome.models, solved, rating);
    }
  }

  /** The work of one cycle once the requests are issued: read the feed from the
      exclusion window's cursor, then rank and pick as `Recommend` says. */
  method ComputeRecommendation(config: Config, outcome: FetchOutcome, u: real, nowMs: int, ghost horizon: int)
    returns (decision: Option<Option<Problem>>)
    requires ValidConfig(config) && WellFormed(outcome, horizon) && 0.0 <= u < 1.0
    ensures decision == Recommend(config, outcome, u, nowMs, horizon)
  {
    var fromSecond := FromSecondFor(config, nowMs);
    if outcome.Failure? {
      return None;
    }
    var submissions, cursors := FetchAllSubmissions(outcome.pages, fromSecond, horizon);
    if submissions.None? {
      return None;
    }
    var userRating := ParseRating(outcome.ratingCapture);
    var solvedIds := SolvedProblemIds(submissions.value);
    var candidates := FilterCandidates(outcome.problems, outcome.models, solvedIds, userRating);
    if |candidates| > 0 {
      decision := Some(Some(SelectRandomProblem(candidates, u).problem));
    } else {
      decision := Some(None);
    }
  }

  /** The label of the menu's problem item. */
  function ProblemText(username: string, current: Option<Problem>): string
  {
    if username == "" then "Set username in settings"
    else if current.Some? then current.value.title
    else "No problem loaded"
  }

  /** The panel indicator. `shown` records every state handed to the panel icon,
      in order; `menuText` is the label the menu's problem item was last built with. */
  class Indicator {
    var currentProblem: Option<Problem>
    var displayState: IconState
    var shown: seq<IconState>
    var menuText: string

    /** At rest a problem is held exactly in the ready state, except after an
        error, which keeps whatever was held before; and nothing is left loading. */
    ghost predicate Valid()
      reads this
    {
      && (displayState == Ready ==> currentProblem.Some?)
      && (displayState == Idle || displayState == NoUsername ==> currentProblem.None?)
      && displayState != Loading
      && (shown != [] ==> displayState == shown[|shown| - 1])
    }

    /** The indicator as built, before its first state is set: no problem, the
        idle icon, and the menu built for `username`. */
    constructor (username: string)
      ensures Valid()
      ensures currentProblem == None && displayState == Idle && shown == []
      ensures menuText == ProblemText(username, None)
    {
      currentProblem := None;
      displayState := Idle;
      shown := [];
      menuText := ProblemText(username, None);
    }

    method UpdateDisplay(state: IconState)
      modifies this`displayState, this`shown
      ensures displayState == state && shown == old(shown) + [state]
    {
      displayState := state;
      shown := shown + [state];
    }

    method BuildMenu(username: string)
      modifies this`menuText
      ensures menuText == ProblemText(username, currentProblem)
    {
      menuText := ProblemText(username, currentProblem);
    }

    /** One recommendation cycle. Without a username nothing happens. Otherwise the
        icon goes to loading, then to the cycle's outcome: ready with the chosen
        problem, idle with none, or error with the previous problem and menu kept. */
    method FetchRecommendation(config: Config, outcome: FetchOutcome, u: real, nowMs: int, ghost horizon: int)
      requires Valid() && ValidConfig(config) && WellFormed(outcome, horizon) && 0.0 <= u < 1.0
      modifies this
      ensures Valid()
      ensures config.username == "" ==> unchanged(this)
      ensures config.username != "" ==>
                var decision := Recommend(config, outcome, u, nowMs, horizon);
                && shown == old(shown) + [Loading, displayState]
                && (decision.None? ==>
                      displayState == Error && currentProblem == old(currentProblem) && menuText == old(menuText))
                && (decision.Some? ==>
                      && currentProblem == decision.value
                      && displayState == (if decision.value.Some? then Ready else Idle)
                      && menuText == ProblemText(config.username, currentProblem))
    {
      if config.username == "" {
        return;
      }
      UpdateDisplay(Loading);
      var decision := ComputeRecommendation(config, outcome, u, nowMs, horizon);
      match decision
      case None =>
        UpdateDisplay(Error);
      case Some(chosen) =>
        currentProblem := chosen;
        UpdateDisplay(if chosen.Some? then Ready else Idle);
        BuildMenu(config.username);
    }

    /** Clears the held problem and shows the no-username state. */
    method ResetState(config: Config)
      requires Valid()
      modifies this
      ensures Valid()
      ensures currentProblem == None && displayState == NoUsername
      ensures shown == old(shown) + [NoUsername]
      ensures menuText == ProblemText(config.username, None)
    {
      currentProblem := None;
      UpdateDisplay(NoUsername);
      BuildMenu(config.username);
    }

    /** The refresh menu item: a cycle when a username is set, a reset otherwise. */
    method HandleRefresh(config: Config, outcome: FetchOutcome, u: real, nowMs: int, ghost horizon: int)
      requires Valid() && ValidConfig(config) && WellFormed(outcome, horizon) && 0.0 <= u < 1.0
      modifies this
      ensures Valid()
      ensures config.username == "" ==>
                && currentProblem == None && displayState == NoUsername
                && shown == old(shown) + [NoUsername] && menuText == ProblemText("", None)
      ensures config.username != "" ==>
                var decision := Recommend(config, outcome, u, nowMs, horizon);
                && shown == old(shown) + [Loading, displayState]
                && (decision.None? ==>
                      displayState == Error && currentProblem == old(currentProblem) && menuText == old(menuText))
                && (decision.Some? ==>
                      && currentProblem == decision.value
                      && displayState == (if decision.value.Some? then Ready else Idle)
                      && menuText == ProblemText(config.username, currentProblem))
    {
      if config.username != "" {
        FetchRecommendation(config, outcome, u, nowMs, horizon);
      } else {
        ResetState(config);
      }
    }

    /** The first state of a newly built indicator: a cycle when a username is
        set, otherwise the no-username icon (the menu is left as built). */
    method InitializeState(config: Config, outcome: FetchOutcome, u: real, nowMs: int, ghost horizon: int)
      requires Valid() && shown == [] && currentProblem == None
      requires ValidConfig(config) && WellFormed(outcome, horizon) && 0.0 <= u < 1.0
      modifies this
      ensures Valid()
      ensures config.username == "" ==>
                && currentProblem == None && displayState == NoUsername
                && shown == [NoUsername] && menuText == old(menuText)
      ensures config.username != "" ==>
                var decision := Recommend(config, outcome, u, nowMs, horizon);
                && shown == [Loading, displayState]
                && (decision.None? ==> displayState == Error && currentProblem == None && menuText == old(menuText))
                && (decision.Some? ==>
                      && currentProblem == decision.value
                      && displayState == (if decision.value.Some? then Ready else Idle)
                      && menuText == ProblemText(config.username, currentProblem))
    {
      if config.username != "" {
        FetchRecommendation(config, outcome, u, nowMs, horizon);
      } else {
        UpdateDisplay(NoUsername);
      }
    }
  }
}
