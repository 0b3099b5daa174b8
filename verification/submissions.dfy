/**
 * The submission service (backend/src/main/java/com/javachallenge/submission/SubmissionService.java):
 * creating a submission, the state and log transitions of `gradeAsync`, and the
 * two aggregations `statsForUser` and `leaderboard`. Tables are sequences of
 * rows; the grading service's HTTP call is an `Outcome` parameter.
 */
module Submissions {
  import opened Wrappers
  import opened Text
  import opened Entities
  import Users
  import Sorting

  /* ---------- createSubmission ---------- */

  /**
   * `createSubmission`: an unknown challenge fails first, then the user lookup;
   * otherwise a new `pending` submission with no score, results or log is
   * saved under the fresh id `id`, pointing at the stored upload `zipPath`.
   */
  function CreateSubmission(challenges: seq<Challenge>, users: seq<User>, challengeId: nat,
                            username: string, id: nat, zipPath: string): (r: Result<Submission>)
    ensures FindChallenge(challenges, challengeId).None? ==> r == Err("Challenge not found")
    ensures FindChallenge(challenges, challengeId).Some? && Users.FindByUsername(users, username).Err? ==>
              r == Err(Users.FindByUsername(users, username).message)
    ensures r.Ok? ==> r.value.challenge in challenges && r.value.challenge.id == challengeId
    ensures r.Ok? ==> r.value.user in users && r.value.user.username == username
    ensures r.Ok? ==> r.value.status == Pending && r.value.score.None? && r.value.graderLog.None? && r.value.id == id
  {
    match FindChallenge(challenges, challengeId)
    case None => Err("Challenge not found")
    case Some(challenge) =>
      match Users.FindByUsername(users, username)
      case Err(m) => Err(m)
      case Ok(user) => Ok(Submission(id, user, challenge, Some(zipPath), Pending, None, None, None, None, None))
  }

  /* ---------- gradeAsync ---------- */

  /** The grading service's reply (`GraderClient.GraderResult`); its strings may be null. */
  datatype GraderReply = GraderReply(
    passed: bool,
    score: int,
    visibleTestsJson: Option<string>,
    hiddenTestsJson: Option<string>,
    checkstyleJson: Option<string>,
    log: Option<string>)

  /**
   * The statement of the `try` block that throws first: one of the three
   * `repo.save` calls, the grading service call, or reading a null reply body.
   */
  datatype Stage = FirstSave | SecondSave | GraderCall | ThirdSave | ReadingReply

  /** How a grading run goes: the grading service replies, or an exception with a (possibly null) message is thrown. */
  datatype Outcome = Graded(reply: GraderReply) | Thrown(stage: Stage, message: Option<string>)

  const InitLine: string := "[PHASE] Initializing grading environment...\n"
  const SendLine: string := "[PHASE] Sending submission to sandbox...\n"
  const ParseLine: string := "[PHASE] Parsing test results...\n"
  const DoneLine: string := "[PHASE] Grading complete.\n"

  /** The four phase lines `gradeAsync` writes, in the order it writes them. */
  datatype PhaseLines = PhaseLines(init: string, send: string, parse: string, done: string)

  const Phases: PhaseLines := PhaseLines(InitLine, SendLine, ParseLine, DoneLine)

  /** What the `catch` block appends; a null message prints as "null". */
  function ErrorLine(message: Option<string>): string {
    "[ERROR] " + JavaStr(message) + "\n"
  }

  function Log(s: Submission): string {
    s.graderLog.GetOr("")
  }

  /** The submission's fields grading never touches. */
  predicate SameIdentity(a: Submission, b: Submission) {
    a.id == b.id && a.user == b.user && a.challenge == b.challenge && a.zipPath == b.zipPath
  }

  /**
   * The rows `gradeAsync` persists, in order: the states written by the
   * `repo.save` calls that succeed, then the final save after the `try`.
   * A failing save writes nothing but the in-memory object keeps its fields,
   * so the `catch` block appends to the log of the newest in-memory state.
   * The phase lines are a parameter here; `GradeAsync` fixes them.
   */
  function GradeWith(sub: Submission, lines: PhaseLines, outcome: Outcome): (saved: seq<Submission>)
    ensures 1 <= |saved| <= 4
    ensures forall i :: 0 <= i < |saved| ==> SameIdentity(saved[i], sub) && saved[i].graderLog.Some?
    ensures forall i :: 0 <= i < |saved| - 1 ==> saved[i].status == Running
    ensures IsTerminal(saved[|saved| - 1].status)
    ensures saved[0].status == Running <==> !(outcome.Thrown? && outcome.stage == FirstSave)
    ensures saved[|saved| - 1].status == Passed <==> outcome.Graded? && outcome.reply.passed
    ensures saved[|saved| - 1].status == Failed <==> outcome.Graded? && !outcome.reply.passed
    ensures saved[|saved| - 1].status == Error <==> outcome.Thrown?
    ensures outcome.Graded? ==>
              var last, r := saved[|saved| - 1], outcome.reply;
              last.score == Some(r.score) && last.visibleTestsJson == r.visibleTestsJson &&
              last.hiddenTestsJson == r.hiddenTestsJson && last.checkstyleViolationsJson == r.checkstyleJson &&
              EndsWith(Log(last), JavaStr(r.log))
    ensures outcome.Thrown? ==>
              var last := saved[|saved| - 1];
              last.score == sub.score && last.visibleTestsJson == sub.visibleTestsJson &&
              EndsWith(Log(last), ErrorLine(outcome.message))
  {
    var s1 := sub.(status := Running, graderLog := Some(lines.init));
    var s2 := s1.(graderLog := Some(lines.init + lines.send));
    var s3 := s2.(graderLog := Some(lines.init + lines.send + lines.parse));
    match outcome
    case Graded(r) =>
      var last := s3.(status := if r.passed then Passed else Failed,
                      score := Some(r.score),
                      visibleTestsJson := r.visibleTestsJson,
                      hiddenTestsJson := r.hiddenTestsJson,
                      checkstyleViolationsJson := r.checkstyleJson,
                      graderLog := Some(Log(s3) + lines.done + JavaStr(r.log)));
      assert EndsWith(Log(last), JavaStr(r.log)) by {
        assert Log(last)[|Log(last)| - |JavaStr(r.log)|..] == JavaStr(r.log);
      }
      [s1, s2, s3, last]
    case Thrown(stage, m) =>
      var persisted := match stage
        case FirstSave => []
        case SecondSave => [s1]
        case GraderCall => [s1, s2]
        case ThirdSave => [s1, s2]
        case ReadingReply => [s1, s2, s3];
      var memory := match stage
        case FirstSave => s1
        case SecondSave => s2
        case GraderCall => s2
        case ThirdSave => s3
        case ReadingReply => s3;
      var last := memory.(status := Error, graderLog := Some(memory.graderLog.GetOr("") + ErrorLine(m)));
      assert EndsWith(Log(last), ErrorLine(m)) by {
        assert Log(last)[|Log(last)| - |ErrorLine(m)|..] == ErrorLine(m);
      }
      persisted + [last]
  }

  /** `gradeAsync` with its own phase lines. */
  function GradeAsync(sub: Submission, outcome: Outcome): seq<Submission> {
    GradeWith(sub, Phases, outcome)
  }

  /** Whether the `repo.save` after the `try` block succeeds; it is outside the `catch`, so its exception escapes. */
  datatype Save = Saved | SaveFailed(message: Option<string>)

  /** A whole grading run: the rows stored, the final in-memory object, and the exception that escapes, if any. */
  datatype GradingRun = GradingRun(stored: seq<Submission>, memory: Submission, escaped: Option<string>)

  /**
   * `gradeAsync` including its final `repo.save`: when that save succeeds the
   * final state is stored and nothing escapes; when it fails the table keeps
   * only the earlier saves, every one of them `running`, and the exception
   * leaves the method.
   */
  function GradeRun(sub: Submission, outcome: Outcome, finalSave: Save): (r: GradingRun)
    ensures r.memory == GradeAsync(sub, outcome)[|GradeAsync(sub, outcome)| - 1]
    ensures IsTerminal(r.memory.status) && SameIdentity(r.memory, sub)
    ensures finalSave.Saved? ==> r.stored == GradeAsync(sub, outcome) && r.escaped.None?
    ensures finalSave.SaveFailed? ==>
              r.escaped == Some(JavaStr(finalSave.message)) && r.stored + [r.memory] == GradeAsync(sub, outcome)
    ensures finalSave.SaveFailed? ==> forall i :: 0 <= i < |r.stored| ==> r.stored[i].status == Running
  {
    var saved := GradeAsync(sub, outcome);
    var memory := saved[|saved| - 1];
    match finalSave
    case Saved => GradingRun(saved, memory, None)
    case SaveFailed(m) =>
      assert saved[..|saved| - 1] + [memory] == saved;
      GradingRun(saved[..|saved| - 1], memory, Some(JavaStr(m)))
  }

  /**
   * `createSubmission` as written: it calls `gradeAsync` on `this`, which
   * bypasses Spring's `@Async` proxy, so grading runs to the end before the
   * method returns. `repo.save` of a new entity returns that same object,
   * so the reply is the graded in-memory state; an exception from the final
   * save escapes to the caller.
   */
  function CreateSubmissionAsWritten(challenges: seq<Challenge>, users: seq<User>, challengeId: nat,
                                     username: string, id: nat, zipPath: string,
                                     outcome: Outcome, finalSave: Save): (r: Result<Submission>)
    ensures CreateSubmission(challenges, users, challengeId, username, id, zipPath).Err? ==>
              r == Err(CreateSubmission(challenges, users, challengeId, username, id, zipPath).message)
    ensures CreateSubmission(challenges, users, challengeId, username, id, zipPath).Ok? ==>
              var pending := CreateSubmission(challenges, users, challengeId, username, id, zipPath).value;
              (finalSave.Saved? ==> r == Ok(GradeAsync(pending, outcome)[|GradeAsync(pending, outcome)| - 1])) &&
              (finalSave.SaveFailed? ==> r == Err(JavaStr(finalSave.message)))
    ensures r.Ok? ==> IsTerminal(r.value.status) && r.value.id == id && r.value.status != Pending
  {
    match CreateSubmission(challenges, users, challengeId, username, id, zipPath)
    case Err(m) => Err(m)
    case Ok(pending) =>
      var run := GradeRun(pending, outcome, finalSave);
      if run.escaped.Some? then Err(run.escaped.value) else Ok(run.memory)
  }

  /** A chain whose neighbours are prefixes is a chain of prefixes. */
  lemma {:induction false} PrefixChain(logs: seq<string>)
    requires forall i :: 0 <= i < |logs| - 1 ==> logs[i] <= logs[i + 1]
    ensures forall i, j :: 0 <= i <= j < |logs| ==> logs[i] <= logs[j]
    decreases |logs|
  {
    if |logs| > 1 {
      PrefixChain(logs[1..]);
      forall j | 0 <= j < |logs|
        ensures logs[0] <= logs[j]
      {
        if j > 0 {
          assert logs[1..][j - 1] == logs[j];
          assert logs[0] <= logs[1] <= logs[j];
        }
      }
      forall i, j | 0 < i <= j < |logs|
        ensures logs[i] <= logs[j]
      {
        assert logs[1..][i - 1] == logs[i] && logs[1..][j - 1] == logs[j];
      }
    }
  }

  /** The logs of the persisted rows, in order. */
  function Logs(saved: seq<Submission>): (r: seq<string>)
    ensures |r| == |saved|
    ensures forall i :: 0 <= i < |saved| ==> r[i] == Log(saved[i])
  {
    if |saved| == 0 then [] else [Log(saved[0])] + Logs(saved[1..])
  }

  lemma IsPrefix(a: string, b: string)
    ensures a <= a + b
  {
    assert (a + b)[..|a|] == a;
  }

  /** The logs `gradeAsync` persists, given how the run goes. */
  function LogTrail(outcome: Outcome): seq<string> {
    TrailOf(InitLine, SendLine, ParseLine, DoneLine, outcome)
  }

  /** The trail with the four phase lines as parameters. */
  function TrailOf(init: string, send: string, parse: string, done: string, outcome: Outcome): seq<string> {
    var l1 := init;
    var l2 := l1 + send;
    var l3 := l2 + parse;
    match outcome
    case Graded(r) => [l1, l2, l3, l3 + done + JavaStr(r.log)]
    case Thrown(FirstSave, m) => [l1 + ErrorLine(m)]
    case Thrown(SecondSave, m) => [l1, l2 + ErrorLine(m)]
    case Thrown(GraderCall, m) => [l1, l2, l2 + ErrorLine(m)]
    case Thrown(ThirdSave, m) => [l1, l2, l3 + ErrorLine(m)]
    case Thrown(ReadingReply, m) => [l1, l2, l3, l3 + ErrorLine(m)]
  }

  lemma LogsFollowTrail(sub: Submission, outcome: Outcome)
    ensures Logs(GradeAsync(sub, outcome)) == LogTrail(outcome)
  {
    LogsFollowTrailOf(sub, Phases, outcome);
  }

  /** The persisted logs are the trail of the phase lines, whatever those lines are. */
  lemma LogsFollowTrailOf(sub: Submission, lines: PhaseLines, outcome: Outcome)
    ensures Logs(GradeWith(sub, lines, outcome)) == TrailOf(lines.init, lines.send, lines.parse, lines.done, outcome)
  {
    var saved := GradeWith(sub, lines, outcome);
    var trail := TrailOf(lines.init, lines.send, lines.parse, lines.done, outcome);
    assert |Logs(saved)| == |trail|;
    match outcome
    case Graded(_) =>
      forall i | 0 <= i < |saved|
        ensures Logs(saved)[i] == trail[i]
      {
      }
    case Thrown(_, _) =>
      forall i | 0 <= i < |saved|
        ensures Logs(saved)[i] == trail[i]
      {
      }
  }

  /** Each log extends the one before it, and each but the last ends in a newline. */
  predicate Grows(t: seq<string>) {
    forall i :: 0 <= i < |t| - 1 ==> t[i] <= t[i + 1] && EndsWith(t[i], "\n")
  }

  lemma GrowsPair(a: string, b: string)
    requires a <= b && EndsWith(a, "\n")
    ensures Grows([a, b])
  {
  }

  lemma GrowsTriple(a: string, b: string, c: string)
    requires a <= b <= c && EndsWith(a, "\n") && EndsWith(b, "\n")
    ensures Grows([a, b, c])
  {
  }

  lemma GrowsQuad(a: string, b: string, c: string, d: string)
    requires a <= b <= c <= d && EndsWith(a, "\n") && EndsWith(b, "\n") && EndsWith(c, "\n")
    ensures Grows([a, b, c, d])
  {
  }

  lemma TrailGrows(outcome: Outcome)
    ensures Grows(LogTrail(outcome))
  {
    assert EndsWith(InitLine, "\n") && EndsWith(SendLine, "\n") && EndsWith(ParseLine, "\n");
    TrailOfGrows(InitLine, SendLine, ParseLine, DoneLine, outcome);
  }

  /** `a <= a + b + c`, with the concatenation grouped as `TrailOf` writes it. */
  lemma IsPrefix2(a: string, b: string, c: string)
    ensures a <= a + b + c
  {
    assert a + b + c == a + (b + c);
    IsPrefix(a, b + c);
  }

  /** Each phase line ends in a newline, so every log but the last does, and each extends the one before. */
  lemma TrailOfGrows(init: string, send: string, parse: string, done: string, outcome: Outcome)
    requires EndsWith(init, "\n") && EndsWith(send, "\n") && EndsWith(parse, "\n")
    ensures Grows(TrailOf(init, send, parse, done, outcome))
  {
    var l1 := init;
    var l2 := l1 + send;
    var l3 := l2 + parse;
    EndsWithAppend(l1, send);
    EndsWithAppend(l2, parse);
    IsPrefix(l1, send);
    IsPrefix(l2, parse);
    match outcome {
      case Graded(r) =>
        IsPrefix2(l3, done, JavaStr(r.log));
        GrowsQuad(l1, l2, l3, l3 + done + JavaStr(r.log));
      case Thrown(FirstSave, m) =>
      case Thrown(SecondSave, m) =>
        IsPrefix2(l1, send, ErrorLine(m));
        GrowsPair(l1, l2 + ErrorLine(m));
      case Thrown(GraderCall, m) =>
        IsPrefix(l2, ErrorLine(m));
        GrowsTriple(l1, l2, l2 + ErrorLine(m));
      case Thrown(ThirdSave, m) =>
        IsPrefix2(l2, parse, ErrorLine(m));
        GrowsTriple(l1, l2, l3 + ErrorLine(m));
      case Thrown(ReadingReply, m) =>
        IsPrefix(l3, ErrorLine(m));
        GrowsQuad(l1, l2, l3, l3 + ErrorLine(m));
    }
  }

  lemma EndsWithAppend(a: string, b: string)
    requires EndsWith(b, "\n")
    ensures EndsWith(a + b, "\n")
  {
    assert (a + b)[|a + b| - 1] == b[|b| - 1];
  }

  /**
   * The log only grows: each persisted row's log is a prefix of every later
   * row's log, and every row before the last ends in a newline.
   */
  lemma GradingLogOnlyGrows(sub: Submission, outcome: Outcome)
    ensures forall i, j :: 0 <= i <= j < |GradeAsync(sub, outcome)| ==>
              Log(GradeAsync(sub, outcome)[i]) <= Log(GradeAsync(sub, outcome)[j])
    ensures forall i :: 0 <= i < |GradeAsync(sub, outcome)| - 1 ==> EndsWith(Log(GradeAsync(sub, outcome)[i]), "\n")
  {
    var saved := GradeAsync(sub, outcome);
    LogsFollowTrail(sub, outcome);
    TrailGrows(outcome);
    PrefixChain(Logs(saved));
  }

  /* ---------- /my ---------- */

  /** The rows of one user, in the table's order (the repository's query sorts them newest first). */
  function OfUser(all: seq<Submission>, userId: nat): (r: seq<Submission>)
    ensures forall s :: s in r <==> s in all && s.user.id == userId
    ensures |r| <= |all|
  {
    if |all| == 0 then []
    else (if all[0].user.id == userId then [all[0]] else []) + OfUser(all[1..], userId)
  }

  function ToDtos(rows: seq<Submission>): (r: seq<SubmissionDto>)
    ensures |r| == |rows|
    ensures forall i :: 0 <= i < |rows| ==> r[i] == ToSubmissionDto(rows[i])
  {
    if |rows| == 0 then [] else [ToSubmissionDto(rows[0])] + ToDtos(rows[1..])
  }

  /** `findByUsername`: the user's submissions as DTOs, or the user lookup's error. */
  function SubmissionsOf(users: seq<User>, all: seq<Submission>, username: string): (r: Result<seq<SubmissionDto>>)
    ensures Users.FindByUsername(users, username).Err? ==> r == Err(Users.FindByUsername(users, username).message)
    ensures r.Ok? ==> var id := Users.FindByUsername(users, username).value.id;
                      forall d :: d in r.value ==> exists s :: s in all && s.user.id == id && d == ToSubmissionDto(s)
    ensures r.Ok? ==> var id := Users.FindByUsername(users, username).value.id;
                      forall s :: s in all && s.user.id == id ==> ToSubmissionDto(s) in r.value
  {
    match Users.FindByUsername(users, username)
    case Err(m) => Err(m)
    case Ok(u) =>
      var rows := OfUser(all, u.id);
      var dtos := ToDtos(rows);
      forall d | d in dtos
        ensures exists s :: s in all && s.user.id == u.id && d == ToSubmissionDto(s)
      {
        var i :| 0 <= i < |dtos| && dtos[i] == d;
        assert rows[i] in rows;
      }
      forall s | s in all && s.user.id == u.id
        ensures ToSubmissionDto(s) in dtos
      {
        var i :| 0 <= i < |rows| && rows[i] == s;
        assert dtos[i] == ToSubmissionDto(s);
      }
      Ok(dtos)
  }

  /* ---------- statsForUser ---------- */

  function CountStatus(rows: seq<Submission>, st: Status): (n: nat)
    ensures n <= |rows|
  {
    if |rows| == 0 then 0 else (if rows[0].status == st then 1 else 0) + CountStatus(rows[1..], st)
  }

  /** The non-null scores, in order. */
  function Scores(rows: seq<Submission>): (r: seq<int>)
    ensures forall v :: v in r <==> exists s :: s in rows && s.score == Some(v)
  {
    if |rows| == 0 then []
    else
      var rest := Scores(rows[1..]);
      assert forall s :: s in rows <==> s == rows[0] || s in rows[1..];
      (if rows[0].score.Some? then [rows[0].score.value] else []) + rest
  }

  /** `max().orElse(0)`. */
  function MaxOrZero(xs: seq<int>): (m: int)
    ensures |xs| == 0 ==> m == 0
    ensures |xs| > 0 ==> m in xs && forall x :: x in xs ==> x <= m
  {
    if |xs| == 0 then 0
    else if |xs| == 1 then xs[0]
    else
      var m := MaxOrZero(xs[1..]);
      assert forall x :: x in xs ==> x == xs[0] || x in xs[1..];
      if xs[0] >= m then xs[0] else m
  }

  predicate NoDuplicates<T(==)>(xs: seq<T>) {
    forall i, j :: 0 <= i < j < |xs| ==> xs[i] != xs[j]
  }

  /** `distinct()`: first occurrences, in order. */
  function Distinct(xs: seq<nat>): (r: seq<nat>)
    ensures NoDuplicates(r)
    ensures forall x :: x in r <==> x in xs
    ensures |r| <= |xs|
  {
    if |xs| == 0 then []
    else
      var init := xs[..|xs| - 1];
      var rest := Distinct(init);
      assert forall x :: x in xs <==> x in init || x == xs[|xs| - 1] by {
        assert xs == init + [xs[|xs| - 1]];
      }
      if xs[|xs| - 1] in rest then rest else rest + [xs[|xs| - 1]]
  }

  /** The challenge ids of the passed rows, with repetitions. */
  function PassedChallengeIds(rows: seq<Submission>): (r: seq<nat>)
    ensures |r| == CountStatus(rows, Passed)
    ensures forall c :: c in r <==> exists s :: s in rows && s.status == Passed && s.challenge.id == c
  {
    if |rows| == 0 then []
    else
      var rest := PassedChallengeIds(rows[1..]);
      assert forall s :: s in rows <==> s == rows[0] || s in rows[1..];
      (if rows[0].status == Passed then [rows[0].challenge.id] else []) + rest
  }

  datatype Stats = Stats(totalSubmissions: nat, passed: nat, failed: nat, bestScore: int, challengesSolved: nat)

  function StatsOf(rows: seq<Submission>): Stats {
    Stats(|rows|, CountStatus(rows, Passed), CountStatus(rows, Failed),
          MaxOrZero(Scores(rows)), |Distinct(PassedChallengeIds(rows))|)
  }

  /** `statsForUser` (the average score is left out). */
  function StatsForUser(users: seq<User>, all: seq<Submission>, username: string): (r: Result<Stats>)
    ensures Users.FindByUsername(users, username).Err? ==> r == Err(Users.FindByUsername(users, username).message)
    ensures Users.FindByUsername(users, username).Ok? ==>
              r == Ok(StatsOf(OfUser(all, Users.FindByUsername(users, username).value.id)))
  {
    match Users.FindByUsername(users, username)
    case Err(m) => Err(m)
    case Ok(u) => Ok(StatsOf(OfUser(all, u.id)))
  }

  lemma {:induction false} PassedAndFailedDisjoint(rows: seq<Submission>)
    ensures CountStatus(rows, Passed) + CountStatus(rows, Failed) <= |rows|
  {
    if |rows| > 0 {
      PassedAndFailedDisjoint(rows[1..]);
    }
  }

  /**
   * What the statistics mean: passed and failed rows are disjoint parts of
   * the total; the best score is the largest non-null score, or 0 when there
   * is none; challengesSolved counts each passed challenge once, so it never
   * exceeds the number of passed rows.
   */
  lemma StatsMeaning(rows: seq<Submission>)
    ensures var st := StatsOf(rows);
            st.passed + st.failed <= st.totalSubmissions &&
            st.challengesSolved <= st.passed &&
            ((forall s :: s in rows ==> s.score.None?) ==> st.bestScore == 0) &&
            (forall s :: s in rows && s.score.Some? ==> s.score.value <= st.bestScore) &&
            ((exists s :: s in rows && s.score.Some?) ==> exists s :: s in rows && s.score == Some(st.bestScore))
    ensures var solved := Distinct(PassedChallengeIds(rows));
            NoDuplicates(solved) &&
            forall c :: c in solved <==> exists s :: s in rows && s.status == Passed && s.challenge.id == c
  {
    PassedAndFailedDisjoint(rows);
    var sc := Scores(rows);
    if exists s :: s in rows && s.score.Some? {
      var s :| s in rows && s.score.Some?;
      assert s.score.value in sc;
    }
    forall s | s in rows && s.score.Some?
      ensures s.score.value <= StatsOf(rows).bestScore
    {
      assert s.score.value in sc;
    }
  }

  /* ---------- leaderboard ---------- */

  /** `findByStatus("passed")`: the passed rows in table order. */
  function PassedRows(all: seq<Submission>): (r: seq<Submission>)
    ensures forall s :: s in r <==> s in all && s.status == Passed
  {
    if |all| == 0 then []
    else (if all[0].status == Passed then [all[0]] else []) + PassedRows(all[1..])
  }

  function UserIdsOf(rows: seq<Submission>): (r: seq<nat>)
    ensures |r| == |rows|
    ensures forall i :: 0 <= i < |rows| ==> r[i] == rows[i].user.id
  {
    if |rows| == 0 then [] else [rows[0].user.id] + UserIdsOf(rows[1..])
  }

  /** A best-score table: challenge id and best score, one pair per challenge. */
  type BestTable = seq<(nat, int)>

  function Keys(t: BestTable): (r: seq<nat>)
    ensures |r| == |t|
    ensures forall i :: 0 <= i < |t| ==> r[i] == t[i].0
  {
    seq(|t|, i requires 0 <= i < |t| => t[i].0)
  }

  lemma KeysTail(t: BestTable)
    requires |t| > 0 && NoDuplicates(Keys(t))
    ensures NoDuplicates(Keys(t[1..]))
    ensures t[0].0 !in Keys(t[1..])
    ensures forall i :: 1 <= i < |t| ==> t[i].0 != t[0].0
  {
    var ks, tail := Keys(t), Keys(t[1..]);
    forall i | 0 <= i < |tail|
      ensures tail[i] == ks[i + 1] && tail[i] != ks[0]
    {
      assert t[1..][i] == t[i + 1];
    }
    forall i, j | 0 <= i < j < |tail|
      ensures tail[i] != tail[j]
    {
      assert ks[i + 1] != ks[j + 1];
    }
    forall i | 1 <= i < |t|
      ensures t[i].0 != t[0].0
    {
      assert ks[0] != ks[i];
    }
  }

  lemma KeysCons(x: (nat, int), rest: BestTable)
    requires NoDuplicates(Keys(rest)) && x.0 !in Keys(rest)
    ensures Keys([x] + rest) == [x.0] + Keys(rest)
    ensures NoDuplicates(Keys([x] + rest))
  {
    var ks := Keys([x] + rest);
    assert forall i :: 1 <= i < |ks| ==> ks[i] == Keys(rest)[i - 1];
    assert ks == [x.0] + Keys(rest);
  }

  /** `bestPerChallenge.merge(challenge, score, Math::max)`. */
  function Merge(t: BestTable, c: nat, v: int): (r: BestTable)
    requires NoDuplicates(Keys(t))
    ensures NoDuplicates(Keys(r))
    ensures forall k :: k in Keys(r) <==> k in Keys(t) || k == c
  {
    if |t| == 0 then
      KeysCons((c, v), []);
      assert [(c, v)] + [] == [(c, v)];
      [(c, v)]
    else
      KeysTail(t);
      if t[0].0 == c then
        var r := [(c, if t[0].1 >= v then t[0].1 else v)] + t[1..];
        KeysCons(r[0], t[1..]);
        KeysCons(t[0], t[1..]);
        assert t == [t[0]] + t[1..];
        r
      else
        var rest := Merge(t[1..], c, v);
        KeysCons(t[0], rest);
        [t[0]] + rest
  }

  /**
   * What `merge` leaves in the table: other challenges' entries untouched,
   * and challenge `c`'s entry the larger of its old score and `v`.
   */
  lemma {:induction false} MergeEntries(t: BestTable, c: nat, v: int)
    requires NoDuplicates(Keys(t))
    ensures forall i :: 0 <= i < |Merge(t, c, v)| && Merge(t, c, v)[i].0 != c ==> Merge(t, c, v)[i] in t
    ensures forall i :: 0 <= i < |Merge(t, c, v)| && Merge(t, c, v)[i].0 == c ==>
              (Merge(t, c, v)[i].1 == v || Merge(t, c, v)[i] in t) && v <= Merge(t, c, v)[i].1 &&
              forall j :: 0 <= j < |t| && t[j].0 == c ==> t[j].1 <= Merge(t, c, v)[i].1
    ensures forall i :: 0 <= i < |t| && t[i].0 != c ==> t[i] in Merge(t, c, v)
  {
    if |t| > 0 && t[0].0 == c {
      KeysTail(t);
    } else if |t| > 0 {
      KeysTail(t);
      MergeEntries(t[1..], c, v);
      var rest := Merge(t[1..], c, v);
      assert Merge(t, c, v) == [t[0]] + rest;
      forall i | 1 <= i < |t|
        ensures t[i] == t[1..][i - 1]
      {
      }
    }
  }

  /** The best-score table of one user's rows, built in row order; rows without a score are skipped. */
  function BestPerChallenge(rows: seq<Submission>): (t: BestTable)
    ensures NoDuplicates(Keys(t))
  {
    if |rows| == 0 then []
    else
      var t := BestPerChallenge(rows[..|rows| - 1]);
      var s := rows[|rows| - 1];
      if s.score.Some? then Merge(t, s.challenge.id, s.score.value) else t
  }

  /** Some row of challenge `c` has a score. */
  ghost predicate Scored(rows: seq<Submission>, c: nat) {
    exists s :: s in rows && s.challenge.id == c && s.score.Some?
  }

  /** `b` is a score of some row of challenge `c`. */
  ghost predicate Attained(rows: seq<Submission>, c: nat, b: int) {
    exists s :: s in rows && s.challenge.id == c && s.score == Some(b)
  }

  /** No row of challenge `c` scores above `b`. */
  ghost predicate Bounds(rows: seq<Submission>, c: nat, b: int) {
    forall s :: s in rows && s.challenge.id == c && s.score.Some? ==> s.score.value <= b
  }

  /** The best-score table is right for `rows`: exactly the scored challenges, each with its maximum. */
  ghost predicate BestFor(rows: seq<Submission>, t: BestTable) {
    (forall c :: c in Keys(t) <==> Scored(rows, c)) &&
    (forall i :: 0 <= i < |t| ==> Attained(rows, t[i].0, t[i].1) && Bounds(rows, t[i].0, t[i].1))
  }

  lemma MergeStep(init: seq<Submission>, s: Submission, t0: BestTable)
    requires s.score.Some? && NoDuplicates(Keys(t0)) && BestFor(init, t0)
    ensures BestFor(init + [s], Merge(t0, s.challenge.id, s.score.value))
  {
    var rows := init + [s];
    var c, v := s.challenge.id, s.score.value;
    var t := Merge(t0, c, v);
    MergeEntries(t0, c, v);
    assert forall x :: x in rows <==> x in init || x == s;
    forall k
      ensures k in Keys(t) <==> Scored(rows, k)
    {
      if Scored(init, k) {
        var x :| x in init && x.challenge.id == k && x.score.Some?;
        assert x in rows;
      }
      if Scored(rows, k) && k != c {
        var x :| x in rows && x.challenge.id == k && x.score.Some?;
        assert x in init;
      }
      assert s in rows;
    }
    forall i | 0 <= i < |t|
      ensures Attained(rows, t[i].0, t[i].1) && Bounds(rows, t[i].0, t[i].1)
    {
      if t[i].0 == c {
        if t[i].1 == v {
          assert s in rows;
        } else {
          assert t[i] in t0;
          var j :| 0 <= j < |t0| && t0[j] == t[i];
          assert Attained(init, t0[j].0, t0[j].1);
          var x :| x in init && x.challenge.id == t0[j].0 && x.score == Some(t0[j].1);
          assert x in rows;
        }
        forall x | x in rows && x.challenge.id == c && x.score.Some?
          ensures x.score.value <= t[i].1
        {
          if x != s {
            assert x in init && Scored(init, c);
            assert c in Keys(t0);
            var j :| 0 <= j < |t0| && Keys(t0)[j] == c;
            assert Bounds(init, t0[j].0, t0[j].1);
          }
        }
      } else {
        assert t[i] in t0;
        var j :| 0 <= j < |t0| && t0[j] == t[i];
        assert Attained(init, t0[j].0, t0[j].1) && Bounds(init, t0[j].0, t0[j].1);
        var x :| x in init && x.challenge.id == t0[j].0 && x.score == Some(t0[j].1);
        assert x in rows;
      }
    }
  }

  lemma SkipUnscored(init: seq<Submission>, s: Submission, t0: BestTable)
    requires s.score.None? && BestFor(init, t0)
    ensures BestFor(init + [s], t0)
  {
    var rows := init + [s];
    assert forall x :: x in rows <==> x in init || x == s;
    forall k
      ensures Scored(rows, k) <==> Scored(init, k)
    {
      if Scored(init, k) {
        var x :| x in init && x.challenge.id == k && x.score.Some?;
        assert x in rows;
      }
    }
    forall i | 0 <= i < |t0|
      ensures Attained(rows, t0[i].0, t0[i].1)
    {
      assert Attained(init, t0[i].0, t0[i].1);
      var x :| x in init && x.challenge.id == t0[i].0 && x.score == Some(t0[i].1);
      assert x in rows;
    }
  }

  /**
   * The table holds exactly the challenges with a scored row, each with the
   * largest score among that challenge's rows.
   */
  lemma {:induction false} BestPerChallengeMeaning(rows: seq<Submission>)
    ensures BestFor(rows, BestPerChallenge(rows))
    decreases |rows|
  {
    if |rows| > 0 {
      var init := rows[..|rows| - 1];
      var s := rows[|rows| - 1];
      BestPerChallengeMeaning(init);
      assert rows == init + [s];
      if s.score.Some? {
        MergeStep(init, s, BestPerChallenge(init));
      } else {
        SkipUnscored(init, s, BestPerChallenge(init));
      }
    }
  }

  function Sum(t: BestTable): int {
    if |t| == 0 then 0 else t[0].1 + Sum(t[1..])
  }

  lemma KeysAppend(a: BestTable, b: BestTable)
    ensures Keys(a + b) == Keys(a) + Keys(b)
  {
    assert forall i :: 0 <= i < |a + b| ==> (Keys(a) + Keys(b))[i] == (a + b)[i].0;
  }

  /** Merging appends a new challenge at the end of the keys and leaves a known one in place. */
  lemma {:induction false} MergeKeys(t: BestTable, c: nat, v: int)
    requires NoDuplicates(Keys(t))
    ensures Keys(Merge(t, c, v)) == Keys(t) + (if c in Keys(t) then [] else [c])
  {
    var r := Merge(t, c, v);
    if |t| == 0 {
      assert Keys(r)[0] == c;
    } else {
      KeysTail(t);
      KeysAppend([t[0]], t[1..]);
      assert t == [t[0]] + t[1..];
      if t[0].0 == c {
        assert forall i :: 0 <= i < |r| ==> Keys(r)[i] == Keys(t)[i];
      } else {
        MergeKeys(t[1..], c, v);
        KeysAppend([t[0]], Merge(t[1..], c, v));
        assert c in Keys(t) <==> c in Keys(t[1..]);
      }
    }
  }

  /** The challenge ids of the scored rows, in row order, with repetitions. */
  function ScoredIds(rows: seq<Submission>): (r: seq<nat>)
    ensures forall c :: c in r <==> Scored(rows, c)
  {
    if |rows| == 0 then []
    else
      var init, s := rows[..|rows| - 1], rows[|rows| - 1];
      assert rows == init + [s];
      assert forall x :: x in rows <==> x in init || x == s;
      ScoredIds(init) + (if s.score.Some? then [s.challenge.id] else [])
  }

  /** The scores of challenge `c`'s rows, in row order. */
  function ChallengeScores(rows: seq<Submission>, c: nat): (r: seq<int>)
    ensures forall v :: v in r <==> Attained(rows, c, v)
  {
    if |rows| == 0 then []
    else
      assert forall x :: x in rows <==> x == rows[0] || x in rows[1..];
      (if rows[0].challenge.id == c && rows[0].score.Some? then [rows[0].score.value] else [])
        + ChallengeScores(rows[1..], c)
  }

  /** The best score of challenge `c` among `rows`, or 0 when none is scored. */
  function BestScore(rows: seq<Submission>, c: nat): int {
    MaxOrZero(ChallengeScores(rows, c))
  }

  /** The best scores of the challenges `ids`, added up. */
  function SumOfBests(rows: seq<Submission>, ids: seq<nat>): int {
    if |ids| == 0 then 0 else BestScore(rows, ids[0]) + SumOfBests(rows, ids[1..])
  }

  /**
   * What a leaderboard line says about a user's group of passed rows: the
   * user of the first row, an absent avatar as "", one solved challenge per
   * distinct challenge with a scored row, and the total of those challenges'
   * best scores.
   */
  predicate StandsFor(st: Standing, group: seq<Submission>)
    requires |group| > 0
  {
    var solved := Distinct(ScoredIds(group));
    st.username == group[0].user.username &&
    st.avatarUrl == group[0].user.avatarUrl.GetOr("") &&
    st.challengesSolved == |solved| &&
    st.totalScore == SumOfBests(group, solved)
  }

  /** The table's challenges are the distinct scored challenge ids, in order of first appearance. */
  lemma {:induction false} BestKeysInOrder(rows: seq<Submission>)
    ensures Keys(BestPerChallenge(rows)) == Distinct(ScoredIds(rows))
    decreases |rows|
  {
    if |rows| > 0 {
      var init, s := rows[..|rows| - 1], rows[|rows| - 1];
      BestKeysInOrder(init);
      var xs := ScoredIds(init);
      if s.score.Some? {
        MergeKeys(BestPerChallenge(init), s.challenge.id, s.score.value);
        assert (xs + [s.challenge.id])[..|xs + [s.challenge.id]| - 1] == xs;
      } else {
        assert xs + [] == xs;
      }
    }
  }

  /** Each entry of the table carries its challenge's best score. */
  lemma BestIsBestScore(rows: seq<Submission>)
    ensures forall i :: 0 <= i < |BestPerChallenge(rows)| ==>
              BestPerChallenge(rows)[i].1 == BestScore(rows, BestPerChallenge(rows)[i].0)
  {
    var t := BestPerChallenge(rows);
    BestPerChallengeMeaning(rows);
    forall i | 0 <= i < |t|
      ensures t[i].1 == BestScore(rows, t[i].0)
    {
      var c, b := t[i].0, t[i].1;
      assert Attained(rows, c, b) && Bounds(rows, c, b);
      var xs := ChallengeScores(rows, c);
      assert b in xs;
      var m := MaxOrZero(xs);
      assert Attained(rows, c, m);
    }
  }

  lemma {:induction false} SumIsSumOfBests(rows: seq<Submission>, t: BestTable)
    requires forall i :: 0 <= i < |t| ==> t[i].1 == BestScore(rows, t[i].0)
    ensures Sum(t) == SumOfBests(rows, Keys(t))
  {
    if |t| > 0 {
      assert Keys(t)[1..] == Keys(t[1..]);
      SumIsSumOfBests(rows, t[1..]);
    }
  }

  /** A leaderboard line before ranking. */
  datatype Standing = Standing(username: string, avatarUrl: string, totalScore: int, challengesSolved: nat)

  /** The standing of one user, from that user's passed rows; the user record is taken from the first row. */
  function StandingOf(group: seq<Submission>): (r: Standing)
    requires |group| > 0
    ensures StandsFor(r, group)
  {
    var user := group[0].user;
    var best := BestPerChallenge(group);
    BestKeysInOrder(group);
    BestIsBestScore(group);
    SumIsSumOfBests(group, best);
    Standing(user.username, user.avatarUrl.GetOr(""), Sum(best), |best|)
  }

  /** A user with a row has a non-empty group. */
  lemma GroupNonEmpty(rows: seq<Submission>, id: nat)
    requires id in UserIdsOf(rows)
    ensures |OfUser(rows, id)| > 0
  {
    var j :| 0 <= j < |rows| && UserIdsOf(rows)[j] == id;
    assert rows[j] in OfUser(rows, id);
  }

  /** The standing of each listed user, in the order of `ids`. */
  function OfUserIds(rows: seq<Submission>, ids: seq<nat>): (r: seq<Standing>)
    requires forall i :: 0 <= i < |ids| ==> ids[i] in UserIdsOf(rows)
    ensures |r| == |ids|
    ensures forall i :: 0 <= i < |ids| ==> |OfUser(rows, ids[i])| > 0 && r[i] == StandingOf(OfUser(rows, ids[i]))
  {
    forall i | 0 <= i < |ids|
      ensures |OfUser(rows, ids[i])| > 0
    {
      GroupNonEmpty(rows, ids[i]);
    }
    seq(|ids|, i requires 0 <= i < |ids| => StandingOf(OfUser(rows, ids[i])))
  }

  /**
   * The standings before sorting: one per distinct user among the passed rows.
   * `groupingBy` builds a `HashMap`, whose iteration order is unspecified;
   * first appearance in the table is used here.
   */
  function Standings(all: seq<Submission>): (r: seq<Standing>)
    ensures |r| == |Distinct(UserIdsOf(PassedRows(all)))|
    ensures forall i :: 0 <= i < |r| ==>
              |OfUser(PassedRows(all), Distinct(UserIdsOf(PassedRows(all)))[i])| > 0 &&
              r[i] == StandingOf(OfUser(PassedRows(all), Distinct(UserIdsOf(PassedRows(all)))[i])) &&
              StandsFor(r[i], OfUser(PassedRows(all), Distinct(UserIdsOf(PassedRows(all)))[i]))
  {
    var passed := PassedRows(all);
    OfUserIds(passed, Distinct(UserIdsOf(passed)))
  }

  /** The standings are keyed by the users with a passed row, each user once. */
  lemma OneStandingPerUser(all: seq<Submission>)
    ensures NoDuplicates(Distinct(UserIdsOf(PassedRows(all))))
    ensures forall u :: u in Distinct(UserIdsOf(PassedRows(all))) <==>
              exists s :: s in all && s.status == Passed && s.user.id == u
  {
    var passed := PassedRows(all);
    var ids := UserIdsOf(passed);
    forall u | u in Distinct(ids)
      ensures exists s :: s in all && s.status == Passed && s.user.id == u
    {
      var j :| 0 <= j < |ids| && ids[j] == u;
      assert passed[j] in passed;
    }
    forall u | exists s :: s in all && s.status == Passed && s.user.id == u
      ensures u in Distinct(ids)
    {
      var s :| s in all && s.status == Passed && s.user.id == u;
      assert s in passed;
      var j :| 0 <= j < |passed| && passed[j] == s;
      assert ids[j] == u;
    }
  }

  datatype Entry = Entry(rank: nat, username: string, avatarUrl: string, totalScore: int, challengesSolved: nat)

  function Descending(s: Standing): int {
    -s.totalScore
  }

  function Ranked(board: seq<Standing>, from: nat): (r: seq<Entry>)
    ensures |r| == |board|
    ensures forall i :: 0 <= i < |board| ==>
              r[i] == Entry(from + i + 1, board[i].username, board[i].avatarUrl, board[i].totalScore, board[i].challengesSolved)
  {
    if |board| == 0 then []
    else
      var s := board[0];
      [Entry(from + 1, s.username, s.avatarUrl, s.totalScore, s.challengesSolved)] + Ranked(board[1..], from + 1)
  }

  /** An entry without its rank. */
  function Unranked(e: Entry): Standing {
    Standing(e.username, e.avatarUrl, e.totalScore, e.challengesSolved)
  }

  function UnrankAll(r: seq<Entry>): (u: seq<Standing>)
    ensures |u| == |r|
    ensures forall i :: 0 <= i < |r| ==> u[i] == Unranked(r[i])
  {
    seq(|r|, i requires 0 <= i < |r| => Unranked(r[i]))
  }

  /**
   * `leaderboard`: standings sorted by total score, highest first (stable), ranked
   * from 1; without their ranks the entries are the standings rearranged.
   */
  function Leaderboard(all: seq<Submission>): (r: seq<Entry>)
    ensures |r| == |Distinct(UserIdsOf(PassedRows(all)))|
    ensures forall i :: 0 <= i < |r| ==> r[i].rank == i + 1
    ensures forall i, j :: 0 <= i < j < |r| ==> r[i].totalScore >= r[j].totalScore
    ensures multiset(UnrankAll(r)) == multiset(Standings(all))
  {
    var unsorted := Standings(all);
    var sorted := Sorting.SortBy(unsorted, Descending);
    SortedByScore(unsorted);
    var r := Ranked(sorted, 0);
    assert UnrankAll(r) == sorted;
    r
  }

  /** Sorting by the negated total puts higher totals first and invents no standing. */
  lemma SortedByScore(unsorted: seq<Standing>)
    ensures var sorted := Sorting.SortBy(unsorted, Descending);
            forall i, j :: 0 <= i < j < |sorted| ==> sorted[i].totalScore >= sorted[j].totalScore
    ensures forall x :: x in Sorting.SortBy(unsorted, Descending) ==> x in unsorted
  {
    var sorted := Sorting.SortBy(unsorted, Descending);
    assert forall i, j :: 0 <= i < j < |sorted| ==> Descending(sorted[i]) <= Descending(sorted[j]);
    assert forall x :: x in sorted ==> x in multiset(sorted);
  }
}
