/** The records the recommender works on: submissions and problems fetched from the
    statistics service, the difficulty model of each problem, the ranked candidate
    built from a problem, and the five states the panel icon can show. */
module Domain {

  datatype Option<+T> = None | Some(value: T)

  /** One entry of a user's submission feed. `result` is the judge's verdict
      string, "AC" meaning accepted. */
  datatype Submission = Submission(problemId: string, result: string, epochSecond: int)

  /** One entry of the problem catalog. */
  datatype Problem = Problem(id: string, contestId: string, title: string)

  /** The difficulty estimate of a problem. Either field may be absent from the
      catalog; a difficulty is an integer here (the service reports a number). */
  datatype ProblemModel = ProblemModel(difficulty: Option<int>, isExperimental: Option<bool>)

  /** A problem together with its distance from the user's rating. */
  datatype Candidate = Candidate(problem: Problem, diff: nat)

  datatype IconState = Idle | Loading | Ready | Error | NoUsername

  /** The verdict that marks a problem as solved. */
  const Accepted: string := "AC"

  function Min(a: int, b: int): (m: int)
    ensures m <= a && m <= b && (m == a || m == b)
  {
    if a <= b then a else b
  }

  function Abs(x: int): (r: nat)
    ensures r == x || r == -x
  {
    if x < 0 then -x else x
  }
}
