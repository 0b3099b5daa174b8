/**
 * The persistent records of the backend as plain values: users, challenge seeds,
 * challenges and submissions, plus the DTOs sent to clients. Database ids
 * (UUIDs) are natural numbers; creation and completion timestamps are left out.
 * Nullable columns are `Option`s.
 */
module Entities {
  import opened Wrappers

  /** The values the backend ever writes into a submission's status column. */
  datatype Status = Pending | Running | Passed | Failed | Error

  function StatusName(s: Status): string {
    match s
    case Pending => "pending"
    case Running => "running"
    case Passed => "passed"
    case Failed => "failed"
    case Error => "error"
  }

  /** Reads a status column back; any other string is not a status. */
  function ParseStatus(name: string): (r: Option<Status>)
    ensures r.Some? ==> StatusName(r.value) == name
  {
    if name == "pending" then Some(Pending)
    else if name == "running" then Some(Running)
    else if name == "passed" then Some(Passed)
    else if name == "failed" then Some(Failed)
    else if name == "error" then Some(Error)
    else None
  }

  lemma StatusNameRoundTrip(s: Status)
    ensures ParseStatus(StatusName(s)) == Some(s)
  {
  }

  /** passed, failed and error end grading; the stream closes on them. */
  predicate IsTerminal(s: Status) {
    s == Passed || s == Failed || s == Error
  }

  datatype User = User(id: nat, githubId: int, username: string, avatarUrl: Option<string>)

  datatype ChallengeSeed = ChallengeSeed(
    id: nat,
    topicId: int,
    title: string,
    difficulty: string,
    story: Option<string>,
    legacyCode: Option<string>,
    requirementsMd: Option<string>,
    testSuiteCode: Option<string>,
    hiddenTestsJson: Option<string>,
    checkstyleRulesJson: Option<string>,
    effectiveJavaItems: Option<seq<int>>)

  datatype Challenge = Challenge(
    id: nat,
    seed: Option<nat>,
    topicId: int,
    title: string,
    theme: string,
    difficulty: string,
    story: Option<string>,
    legacyCode: Option<string>,
    requirementsMd: Option<string>,
    testSuiteCode: Option<string>,
    hiddenTestsJson: Option<string>,
    checkstyleRulesJson: Option<string>,
    aiGenerated: bool,
    challengeType: string)

  datatype Submission = Submission(
    id: nat,
    user: User,
    challenge: Challenge,
    zipPath: Option<string>,
    status: Status,
    score: Option<int>,
    visibleTestsJson: Option<string>,
    hiddenTestsJson: Option<string>,
    checkstyleViolationsJson: Option<string>,
    graderLog: Option<string>)

  datatype SubmissionDto = SubmissionDto(
    id: nat,
    challengeId: nat,
    challengeTitle: string,
    status: string,
    score: Option<int>,
    visibleTestsJson: Option<string>,
    hiddenTestsJson: Option<string>,
    checkstyleViolationsJson: Option<string>)

  function ToSubmissionDto(s: Submission): SubmissionDto {
    SubmissionDto(s.id, s.challenge.id, s.challenge.title, StatusName(s.status), s.score,
                  s.visibleTestsJson, s.hiddenTestsJson, s.checkstyleViolationsJson)
  }

  datatype ChallengeDto = ChallengeDto(
    id: nat,
    topicId: int,
    title: string,
    theme: string,
    difficulty: string,
    challengeType: string,
    story: Option<string>,
    requirementsMd: Option<string>,
    aiGenerated: bool)

  function ToChallengeDto(c: Challenge): ChallengeDto {
    ChallengeDto(c.id, c.topicId, c.title, c.theme, c.difficulty, c.challengeType,
                 c.story, c.requirementsMd, c.aiGenerated)
  }

  /** An HTTP response: status code and an optional body. */
  datatype Response<T> = Response(code: int, body: Option<T>)

  /** Spring Data `findById` over a table held in insertion order: the first row with the id. */
  function FindChallenge(rows: seq<Challenge>, id: nat): (r: Option<Challenge>)
    ensures r.Some? ==> r.value in rows && r.value.id == id
    ensures r.None? ==> forall c :: c in rows ==> c.id != id
  {
    if |rows| == 0 then None
    else if rows[0].id == id then Some(rows[0])
    else FindChallenge(rows[1..], id)
  }

  function FindSubmission(rows: seq<Submission>, id: nat): (r: Option<Submission>)
    ensures r.Some? ==> r.value in rows && r.value.id == id
    ensures r.None? ==> forall s :: s in rows ==> s.id != id
  {
    if |rows| == 0 then None
    else if rows[0].id == id then Some(rows[0])
    else FindSubmission(rows[1..], id)
  }
}
