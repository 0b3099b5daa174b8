# Java challenge platform: grading pipeline and rules, in Dafny

The platform hands out legacy Java programs ("seeds") to refactor. Users
download a challenge as a zip bundle and submit their solution as a zip.

The backend stores the submission as `pending` and is meant to grade it in
the background. As written it grades it before replying, and the stream's
final event cannot be serialised (see "Findings").

A grading service unpacks the zip, injects hidden tests, runs Maven and
Checkstyle, reads the Surefire and Checkstyle reports and scores the run.
Meanwhile the backend polls the submission and streams its growing log, its
status and, once grading is over, its final record to the browser as
server-sent events. The browser's grading terminal classifies each log line
and follows the output.

This project models that pipeline as pure functions over immutable datatypes
and proves what each step promises. It covers:

- **Consumer.** The terminal's line classifier, its event reducer and its
  scroll rule.
- **Producer.** The stream's polling tick and the grading run, with a final
  save that can fail. Both are modelled as written and as evidently intended.
- **Producer and consumer together.** The log deltas the stream sends
  reassemble the stored log, and the terminal ends up showing the last row
  polled.
- **Grading service.** The score calculator, the visible/hidden split, the pass rule,
  the error reply, the zip-slip guard and the hidden-test injection.
- **Report parsers.** Surefire and Checkstyle, over an abstract XML tree.
- **Aggregations.** Per-user statistics and the leaderboard.
- **Bundles and downloads.** The bundle's slug, entries and sizes, and the
  download headers.
- **Smaller rules.** Variant generation, find-or-create login, the
  authorisation table, and the colour and type helpers of the web client.
- **Seeds.** The six legacy programs, as reference definitions of the
  behaviour a refactoring must keep.

Module layout:

- `Wrappers`, `Text`, `Utf8`, `Xml` and `Sorting` give the library behaviour
  the code relies on:
  - Java's `String.strip`, `indexOf`, `startsWith` and `Integer.parseInt`;
  - JavaScript's `trim`, `trimEnd` and `split`;
  - UTF-8 encoding, as in section 3 of RFC 3629;
  - the DOM calls `getElementsByTagName`, `getAttribute` and `getTextContent`;
  - the stable `Collections.sort`.
- `Entities` holds the persisted records. `GraderModel` holds the grading service's
  result records.
- Every other module follows one source file.

The server-sent events are modelled at the event level (section 9.2 of the
WHATWG HTML Living Standard), not on the wire.

Where the code and its documentation disagree, the model follows the code:

- The grading service calls the score calculator with three arguments
  (`GraderController.java:67`), but the calculator takes four, the last being
  "hidden tests configured". The model uses the four-argument calculator and
  makes that flag an input of the grading run.
- The leaderboard calls a repository query for passed submissions that the
  repository interface does not declare. It is modelled as a filter on the
  status.
- The terminal's `status` handler has no guard for terminal states: a later
  status event overwrites "passed" (`GradingTerminal.StatusCanLeaveTerminal`).
  The stream stops only because `complete` closes the event source.
- The terminal trims only the end of a line. An indented `[PHASE]` or
  `[ERROR]` line therefore does not count as a phase or error line
  (`GradingTerminal.LeadingWhitespaceDefeatsPrefixRules`).
- The generation prompt fills its SEED THEME slot with the seed's title
  (`ChallengeGeneration.PromptSlots`).

## Model

| member | source | states |
|---|---|---|
| GradingTerminal.ClassifyFollowsRuleTable | frontend/src/components/challenges/GradingTerminal.tsx:20-32 | The classifier takes the first match among eight ordered rules, applied to the line without its trailing whitespace: [PHASE] prefix, [ERROR] prefix, test summary, BUILD SUCCESS, BUILD FAILURE, Checkstyle violations, [INFO] Running, [ERROR] anywhere. A line no rule matches is a plain log line. |
| GradingTerminal.FirstMatchFrom | frontend/src/components/challenges/GradingTerminal.tsx:23-31 | An ordered rule table is decided by the earliest rule that holds. When none holds the line is a log line with its text unchanged. |
| GradingTerminal.PhaseIff | frontend/src/components/challenges/GradingTerminal.tsx:21-23 | A line is a phase line exactly when, trailing whitespace removed, it starts with "[PHASE]". |
| GradingTerminal.TestSummaryTakesPrecedence | frontend/src/components/challenges/GradingTerminal.tsx:25-30 | A line mentioning both "Tests run:" and "Failures:" is a test line. This holds even when it also says BUILD FAILURE or mentions [ERROR] after its start. |
| GradingTerminal.ClassifiedText | frontend/src/components/challenges/GradingTerminal.tsx:21-31 | A line opening with "[PHASE] ", or with "[ERROR] " without a phase marker, is shown without those eight characters. An unmarked line is shown as trimmed at the end, nothing more. |
| GradingTerminal.UnmarkedKeepsText | frontend/src/components/challenges/GradingTerminal.tsx:25-31 | A line without a marker prefix is never a phase and keeps its end-trimmed text. |
| GradingTerminal.LeadingWhitespaceDefeatsPrefixRules | frontend/src/components/challenges/GradingTerminal.tsx:21-24 | Only trailing whitespace is removed. A line indented by one space is never a phase and keeps its text, marker included. |
| GradingTerminal.KeepNonBlank | frontend/src/components/challenges/GradingTerminal.tsx:69 | Of the pieces of a log chunk, only the non-blank ones become lines. |
| GradingTerminal.LinesOfAppend | frontend/src/components/challenges/GradingTerminal.tsx:67-70 | Splitting a log into chunks at newlines does not change the lines shown. The lines of the whole are the lines of the first chunk followed by those of the rest. |
| GradingTerminal.Handle | frontend/src/components/challenges/GradingTerminal.tsx:67-92 | A `log` event appends exactly the classified non-blank lines of its data; no other event touches the lines. A readable `status` event sets the status it carries, and nothing else changes the status. The source is closed once `complete` arrives. A readable `complete` event sets the completed record, and nothing else changes it. |
| GradingTerminal.RunOnlyAppends | frontend/src/components/challenges/GradingTerminal.tsx:70 | Over any sequence of events, earlier lines are never changed or removed. |
| GradingTerminal.ClosedTerminalIsFrozen | frontend/src/components/challenges/GradingTerminal.tsx:85-92 | After the source is closed, no further event changes anything. |
| GradingTerminal.IgnoredEvents | frontend/src/components/challenges/GradingTerminal.tsx:73-90 | Transport errors and unreadable status payloads leave the terminal as it was. |
| GradingTerminal.CompleteCloses | frontend/src/components/challenges/GradingTerminal.tsx:80-86 | `complete` always closes the source. The record is handed on only when its payload is readable. |
| GradingTerminal.StatusCanLeaveTerminal | frontend/src/components/challenges/GradingTerminal.tsx:73-78 | A "running" status after "passed" is displayed: the handler has no guard for terminal states. |
| GradingTerminal.HandleScroll | frontend/src/components/challenges/GradingTerminal.tsx:96-101 | With no element the flag is kept. Otherwise the user counts as scrolled up exactly when the view is 40 pixels or more from the bottom. |
| GradingTerminal.AutoScroll | frontend/src/components/challenges/GradingTerminal.tsx:104-108 | A scrolled-up view is left alone. Otherwise the view jumps to the bottom. |
| GradingTerminal.PinnedWhileNotScrolledUp | frontend/src/components/challenges/GradingTerminal.tsx:96-108 | While the user has not scrolled up, growing output keeps the view at the bottom. |
| GradingTerminal.DetachedWhileScrolledUp | frontend/src/components/challenges/GradingTerminal.tsx:104-108 | Once the user has scrolled up, new output never moves the view. |
| GradingTerminal.ScrollingBackResumesPinning | frontend/src/components/challenges/GradingTerminal.tsx:96-108 | Scrolling back to within 40 pixels of the bottom re-attaches the view: the next output is followed to the bottom. |
| GradingStream.Submit | backend/src/main/java/com/javachallenge/submission/SubmissionController.java:25-34 | The evidently intended reply, with grading in the background: without a login the reply is 401. Otherwise a creation error propagates, or the reply is 202 with the DTO of a pending submission. |
| GradingStream.SubmitAsWritten | backend/src/main/java/com/javachallenge/submission/SubmissionController.java:25-34 | The reply as written: without a login the reply is 401. Otherwise it carries the error of creation or of the final save, or 202 with the DTO of the submission after grading. |
| GradingStream.SubmitAsWrittenRepliesGraded | backend/src/main/java/com/javachallenge/submission/SubmissionService.java:51-55 | For the same request, the intended reply shows "pending" while the reply as written shows passed, failed or error. |
| GradingStream.Get | backend/src/main/java/com/javachallenge/submission/SubmissionController.java:36-42 | The reply is 404 with no body exactly when no submission has the id. Otherwise it is 200 with the DTO of the submission that has it. |
| GradingStream.My | backend/src/main/java/com/javachallenge/submission/SubmissionController.java:44-50 | Without a login the reply is 401. Otherwise it fails exactly when the user lookup fails, and is otherwise 200 with exactly the DTOs of that user's submissions. |
| GradingStream.MyStats | backend/src/main/java/com/javachallenge/submission/SubmissionController.java:52-58 | Without a login the reply is 401. Otherwise it fails exactly when the user lookup fails, and is otherwise 200 with that user's statistics. |
| GradingStream.TickOnce | backend/src/main/java/com/javachallenge/submission/SubmissionController.java:74-111 | A vanished submission produces one "Submission not found" error event and ends the stream. Otherwise the stream ends exactly when the status is passed, failed or error, and the tick's last event is then the one that ends it. That event is `complete` with the row's DTO when the mapper can write `java.time` values. With the handler's bare mapper it is the serialisation exception passed to `completeWithError`. The sent-length counter never decreases. |
| GradingStream.WriteDto | backend/src/main/java/com/javachallenge/submission/SubmissionController.java:102-104 | The DTO is written exactly when the mapper has a `java.time` module, unchanged, because every DTO carries an `Instant`. The bare mapper fails with Jackson's unsupported-type message. |
| GradingStream.Finish | backend/src/main/java/com/javachallenge/submission/SubmissionController.java:101-111 | On a terminal row the stream ends either way: with `complete` and the row's DTO exactly when the mapper writes it, and otherwise with the mapper's exception. |
| GradingStream.BareMapperNeverCompletes | backend/src/main/java/com/javachallenge/submission/SubmissionController.java:101-111 | With the handler's bare mapper no stream ever sends a `complete` event, whatever rows it reads. |
| GradingStream.NothingAfterEnd | backend/src/main/java/com/javachallenge/submission/SubmissionController.java:77-111 | An event that ends the stream (the not-found error, `complete`, or an abort through `completeWithError`) is always the last event sent. |
| GradingStream.EndsOnlyOnTerminal | backend/src/main/java/com/javachallenge/submission/SubmissionController.java:100-107 | While every polled row exists and is not terminal, every poll is made and nothing ends the stream. |
| GradingStream.ReadsUpToTerminal | backend/src/main/java/com/javachallenge/submission/SubmissionController.java:74-107 | When only the last row may be terminal, the stream reads every row. |
| GradingStream.TickSendsDelta | backend/src/main/java/com/javachallenge/submission/SubmissionController.java:85-91 | When what was already sent is a prefix of the stored log, one poll sends exactly the rest of the log and records the full length. |
| GradingStream.ClosingCarriesNoLog | backend/src/main/java/com/javachallenge/submission/SubmissionController.java:93-111 | The status event and the event that ends the stream add nothing to the log text sent. |
| GradingStream.DeltasReassembleLog | backend/src/main/java/com/javachallenge/submission/SubmissionController.java:72-107 | When each polled log extends the previous one, the log events of a whole stream, concatenated, are exactly the log of the last row polled. A missing log counts as "". |
| GradingPipeline.StatusPayloadRoundTrip | backend/src/main/java/com/javachallenge/submission/SubmissionController.java:94-98 | The client reads the status name back from the status payload, for every score and for none. |
| GradingPipeline.ParseStatusPayload | frontend/src/components/challenges/GradingTerminal.tsx:73-77 | A payload is read only when it has the server's status shape. What it yields is the quoted name after the `status` key, which contains no quote. |
| GradingPipeline.MissingSubmissionLeavesTerminal | backend/src/main/java/com/javachallenge/submission/SubmissionController.java:77-82 | The not-found event ends the stream but changes nothing on the terminal, because the client ignores error events. |
| GradingPipeline.StatusAndCompleteStep | backend/src/main/java/com/javachallenge/submission/SubmissionController.java:93-111 | The closing part of a poll leaves the lines alone and sets the row's status. It closes the terminal and hands over the row's DTO exactly when the row is terminal and the mapper writes the DTO. Otherwise the record is left as it was. |
| GradingPipeline.LogPartStep | backend/src/main/java/com/javachallenge/submission/SubmissionController.java:85-91 | The log part of a poll, delivered to a terminal that shows the text sent so far (cut at a newline), makes it show the lines of the whole stored log. |
| GradingPipeline.TickStep | backend/src/main/java/com/javachallenge/submission/SubmissionController.java:84-111 | After one poll, the terminal shows the row: its log lines and its status. It is closed, with the row's DTO, exactly when the row is terminal and the mapper writes the DTO; otherwise it is open with no record. |
| GradingPipeline.PipelineShowsLastRow | backend/src/main/java/com/javachallenge/submission/SubmissionController.java:65-119 | Whatever rows are polled, as long as each log extends the last at a line boundary, the terminal ends up showing the last row the stream read. It is closed with the record exactly when that row is terminal and the mapper writes its DTO. |
| GradingPipeline.GradingSeenLive | backend/src/main/java/com/javachallenge/submission/SubmissionService.java:58-88 | Streaming a grading run from its pending row leaves the terminal showing the final saved row: its full log and its terminal status. With a mapper that writes `java.time` values the terminal is also closed and shows the DTO. With the handler's bare mapper it stays open with no record. |
| GradingPipeline.LiveRowsAllRead | backend/src/main/java/com/javachallenge/submission/SubmissionController.java:100-107 | When only the last saved row is terminal, the stream reads the pending row and every saved row. |
| GradingPipeline.ConnectToGradedRow | frontend/src/components/challenges/GradingTerminal.tsx:67-90 | One connection of the handler's stream to a graded row appends the whole log to an open terminal and sets the status. It leaves the terminal open, with no record. |
| GradingPipeline.ReconnectRepeatsLog | frontend/src/components/challenges/GradingTerminal.tsx:88-90 | Opened on a graded row, the handler's stream leaves the terminal open with the log's lines and no record. The reconnection that follows appends the same lines a second time. |
| GradingPipeline.FinalSaveFailureNeverEnds | backend/src/main/java/com/javachallenge/submission/SubmissionService.java:87 | When the final save fails, the stream reads every stored row and sends no event that ends it. |
| GradingPipeline.FinalSaveFailureLeavesOpen | backend/src/main/java/com/javachallenge/submission/SubmissionService.java:87 | When the final save fails, the terminal stays open with no record, showing "pending" or "running". |
| Submissions.CreateSubmission | backend/src/main/java/com/javachallenge/submission/SubmissionService.java:35-56 | A missing challenge fails with "Challenge not found", before the user is looked up. A missing user fails with the lookup's message. Otherwise the new row belongs to that challenge and that user, and is pending, unscored and without a log. |
| Submissions.CreateSubmissionAsWritten | backend/src/main/java/com/javachallenge/submission/SubmissionService.java:35-56 | As written, creation fails as `createSubmission` does. It then returns the graded in-memory submission when the final save succeeds, or that save's exception. A returned submission is never pending. |
| Submissions.GradeWith | backend/src/main/java/com/javachallenge/submission/SubmissionService.java:58-88 | A grading run saves the row one to four times, each save with the same identity and a log. Every save but the last is "running". The last is terminal: passed or failed as the grading service decided when it replied, error exactly when something threw. It carries the reply's score, results and log, or ends its log with the error line. |
| Submissions.GradeRun | backend/src/main/java/com/javachallenge/submission/SubmissionService.java:58-88 | The in-memory result of a run is always terminal. When the final save succeeds every state is stored and nothing escapes. When it fails, its exception escapes and only the earlier saves are stored, every one of them "running". |
| Submissions.LogsFollowTrailOf | backend/src/main/java/com/javachallenge/submission/SubmissionService.java:60-87 | The saved logs are, save by save, the phase lines written so far. They end with the grading service's log or with the error line. |
| Submissions.GradingLogOnlyGrows | backend/src/main/java/com/javachallenge/submission/SubmissionService.java:62-85 | Across the saves of one run, each earlier log is a prefix of every later one, and every save before the last ends at a newline. |
| Submissions.SubmissionsOf | backend/src/main/java/com/javachallenge/submission/SubmissionService.java:94-98 | An unknown user gives the lookup's error. Otherwise the reply holds the DTO of every submission of that user and nothing else. |
| Submissions.StatsForUser | backend/src/main/java/com/javachallenge/submission/SubmissionService.java:100-127 | An unknown user gives the lookup's error. Otherwise the statistics are computed from exactly that user's submissions. |
| Submissions.StatsMeaning | backend/src/main/java/com/javachallenge/submission/SubmissionService.java:103-117 | Passed plus failed never exceeds the total, and challenges solved never exceed passes. The best score is 0 when nothing is scored, and otherwise the highest score present. The solved challenges are exactly the distinct challenges with a passed submission. |
| Submissions.PassedAndFailedDisjoint | backend/src/main/java/com/javachallenge/submission/SubmissionService.java:103-105 | The passed and failed counts together never exceed the number of submissions. |
| Submissions.MaxOrZero | backend/src/main/java/com/javachallenge/submission/SubmissionService.java:110-113 | With no scores the result is 0. Otherwise it is one of the scores and no score exceeds it. |
| Submissions.Distinct | backend/src/main/java/com/javachallenge/submission/SubmissionService.java:114-117 | The same ids, each once. |
| Submissions.MergeEntries | backend/src/main/java/com/javachallenge/submission/SubmissionService.java:142 | Merging with max leaves the other challenges alone. The merged challenge then holds the larger of its old best and the new score. |
| Submissions.BestPerChallengeMeaning | backend/src/main/java/com/javachallenge/submission/SubmissionService.java:139-144 | The table built from a user's passed rows has an entry exactly for the challenges with a scored row. Each entry holds the highest score recorded for its challenge. |
| Submissions.OneStandingPerUser | backend/src/main/java/com/javachallenge/submission/SubmissionService.java:130-137 | The standings are keyed by the users with a passed submission, each user once. |
| Submissions.StandingOf | backend/src/main/java/com/javachallenge/submission/SubmissionService.java:137-151 | A user's standing has the user of the group's first row, the avatar or "" when it is absent, and one solved challenge per distinct challenge with a scored row. Its total is the sum, over those challenges, of each challenge's highest score. |
| Submissions.BestKeysInOrder | backend/src/main/java/com/javachallenge/submission/SubmissionService.java:139-144 | The best-score table lists the distinct scored challenges, in order of first appearance. |
| Submissions.BestIsBestScore | backend/src/main/java/com/javachallenge/submission/SubmissionService.java:139-144 | Each entry of the best-score table holds the highest score among its challenge's rows. |
| Submissions.MergeKeys | backend/src/main/java/com/javachallenge/submission/SubmissionService.java:142 | Merging a new challenge appends it to the table. Merging a known challenge leaves the challenges as they were. |
| Submissions.ScoredIds | backend/src/main/java/com/javachallenge/submission/SubmissionService.java:140-144 | A challenge id is listed exactly when some row of that challenge has a score. |
| Submissions.ChallengeScores | backend/src/main/java/com/javachallenge/submission/SubmissionService.java:140-144 | A score is listed exactly when some row of that challenge has it. |
| Submissions.Standings | backend/src/main/java/com/javachallenge/submission/SubmissionService.java:130-152 | The i-th standing stands for the passed rows of the i-th user with a passed row, in the sense of `StandsFor`. |
| Submissions.Leaderboard | backend/src/main/java/com/javachallenge/submission/SubmissionService.java:129-163 | The board has one entry per user with a passed submission, ranked 1, 2, 3 and so on, with totals that never increase down the board. Without their ranks, the entries are the standings rearranged. |
| Submissions.SortedByScore | backend/src/main/java/com/javachallenge/submission/SubmissionService.java:154 | The sort puts higher totals first and adds no standing that was not there. |
| Scoring.StyleScore | grader/src/main/java/com/javachallenge/grader/score/ScoreCalculator.java:24 | Style points run from 0 to 20. There are 20 exactly when there are no violations; each violation costs 2, down to 0 from ten violations on. |
| Scoring.ProportionalRoundsHalfUp | grader/src/main/java/com/javachallenge/grader/score/ScoreCalculator.java:36-40 | The proportional score is the pass fraction of the points rounded to the nearest integer, with halves rounded up. |
| Scoring.ProportionalBounds | grader/src/main/java/com/javachallenge/grader/score/ScoreCalculator.java:37-39 | The proportional score lies between 0 and the maximum. It is the maximum when all tests pass and 0 when none does. |
| Scoring.ProportionalMonotone | grader/src/main/java/com/javachallenge/grader/score/ScoreCalculator.java:36-40 | More passing tests out of the same number never lower the proportional score. |
| Scoring.Calculate | grader/src/main/java/com/javachallenge/grader/score/ScoreCalculator.java:22-34 | The score lies between 0 and 100. It depends only on the pass counts, the list sizes, the number of violations and whether hidden tests are configured. |
| Scoring.HiddenIgnoredWhenNotConfigured | grader/src/main/java/com/javachallenge/grader/score/ScoreCalculator.java:26-29 | Without hidden tests configured, hidden results have no influence: the score is visible tests out of 80 plus style. |
| Scoring.PerfectScore | grader/src/main/java/com/javachallenge/grader/score/ScoreCalculator.java:22-34 | Passing every test with no violations scores 100, with or without hidden tests. |
| Scoring.ScoreMonotone | grader/src/main/java/com/javachallenge/grader/score/ScoreCalculator.java:22-34 | More passing tests and fewer violations never lower the score. |
| GraderApi.ParsePath | grader/src/main/java/com/javachallenge/grader/api/GraderController.java:92 | A path is absolute exactly when it starts with '/'. Empty names from repeated or trailing slashes are dropped. |
| GraderApi.Resolve | grader/src/main/java/com/javachallenge/grader/api/GraderController.java:92 | An absolute entry name replaces the work directory. A relative one is appended to it. |
| GraderApi.AcceptedStaysInside | grader/src/main/java/com/javachallenge/grader/api/GraderController.java:92-93 | An accepted entry lands under the work directory or on the directory itself: its target is the directory followed by zero or more names, none of them "", "." or "..". |
| GraderApi.DotEntryIsWorkDirectory | grader/src/main/java/com/javachallenge/grader/api/GraderController.java:92-93 | The entry "." passes the guard, and its target is the work directory itself. |
| GraderApi.PlainEntryAccepted | grader/src/main/java/com/javachallenge/grader/api/GraderController.java:92-93 | A relative entry made only of ordinary names is accepted and lands at the directory followed by those names. |
| GraderApi.ClimbingEntryRefused | grader/src/main/java/com/javachallenge/grader/api/GraderController.java:92-93 | An entry "../x" is refused. |
| GraderApi.AbsoluteEntryRefused | grader/src/main/java/com/javachallenge/grader/api/GraderController.java:92-93 | An absolute entry "/x" is refused. |
| GraderApi.Extract | grader/src/main/java/com/javachallenge/grader/api/GraderController.java:88-103 | Extraction completes exactly when every entry is accepted. Otherwise it fails with "Zip path traversal!". |
| GraderApi.InjectHiddenTests | grader/src/main/java/com/javachallenge/grader/api/GraderController.java:105-117 | The literal "[]" injects nothing. An unparsable document fails with the parser's message. Otherwise the items are written as files. |
| GraderApi.WriteAll | grader/src/main/java/com/javachallenge/grader/api/GraderController.java:110-116 | Each item becomes src/test/java/com/challenge/ followed by its class name and ".java", holding its code, in item order. The writing fails exactly when some item is unreadable. |
| GraderApi.Visible | grader/src/main/java/com/javachallenge/grader/api/GraderController.java:62-63 | The visible list holds exactly the tests whose id does not mention "Hidden". A single test is kept exactly when it is not hidden. |
| GraderApi.Hidden | grader/src/main/java/com/javachallenge/grader/api/GraderController.java:64-65 | The hidden list holds exactly the tests whose id mentions "Hidden". A single test is kept exactly when it is hidden. |
| GraderApi.VisibleAppend | grader/src/main/java/com/javachallenge/grader/api/GraderController.java:62-63 | The visible list keeps report order: the visible tests of two reports in a row are those of the first, then those of the second. |
| GraderApi.HiddenAppend | grader/src/main/java/com/javachallenge/grader/api/GraderController.java:64-65 | The hidden list keeps report order in the same way. |
| GraderApi.SplitIsPartition | grader/src/main/java/com/javachallenge/grader/api/GraderController.java:62-65 | Together the two lists are the tests, with nothing lost and nothing counted twice. |
| GraderApi.Scored | grader/src/main/java/com/javachallenge/grader/api/GraderController.java:62-77 | The reply for a completed run carries the split results, the violations and the score. It passes exactly when the score reaches 60 and Maven exited with 0. |
| GraderApi.Grade | grader/src/main/java/com/javachallenge/grader/api/GraderController.java:39-86 | Every reply's score lies between 0 and 100, and a passing reply scored at least 60. A refused zip entry yields the error reply with the traversal message. |
| GraderApi.FailuresScoreZero | grader/src/main/java/com/javachallenge/grader/api/GraderController.java:79-82 | A run that throws is reported as not passed, score 0, no results, and a log starting with "Grader error: ". |
| GraderApi.PassRule | grader/src/main/java/com/javachallenge/grader/api/GraderController.java:58-76 | A run that completes passes exactly when its score reaches 60 and Maven exited cleanly. The split loses no test. The violations are the parsed ones, and the score is the calculator's over the visible and hidden parts of the parsed results and those violations. |
| Surefire.TestCaseResult | grader/src/main/java/com/javachallenge/grader/parser/SurefireParser.java:32-47 | A test is named class name, '#', method name. It passes exactly when it has neither a failure nor an error element, and only failed tests carry a message. The message is the stripped text of the first failure element, or of the first error element when there is no failure. |
| Surefire.FileResults | grader/src/main/java/com/javachallenge/grader/parser/SurefireParser.java:27-51 | An unreadable report yields one failing result named after the file, with the parser's message. A readable one yields the result of each testcase element in document order: the k-th result is that of the k-th testcase. |
| Surefire.Parse | grader/src/main/java/com/javachallenge/grader/parser/SurefireParser.java:17-53 | A missing directory yields no results. Otherwise the results of each ".xml" file sit in one block, in listing order, after the results of the files listed before it. |
| Surefire.ParseCount | grader/src/main/java/com/javachallenge/grader/parser/SurefireParser.java:21-52 | There is one result per testcase in each readable ".xml" file and one per unreadable ".xml" file. Other files contribute none. |
| Surefire.UnreadableReportFails | grader/src/main/java/com/javachallenge/grader/parser/SurefireParser.java:49-51 | An unreadable report shows up in its place in the listing as a failing test named after the file. |
| Surefire.HiddenClassNamesTheTest | grader/src/main/java/com/javachallenge/grader/parser/SurefireParser.java:33 | A test of a class whose name mentions "Hidden" has an id mentioning "Hidden", so it counts as hidden. |
| Checkstyle.LineNumber | grader/src/main/java/com/javachallenge/grader/parser/CheckstyleParser.java:47-49 | A line number is a 32-bit integer: the parsed value when Java parses the text, and 0 otherwise. |
| Checkstyle.Violation | grader/src/main/java/com/javachallenge/grader/parser/CheckstyleParser.java:31-38 | A violation records its file's name, the severity, source and message attributes verbatim, and the line attribute as a line number. |
| Checkstyle.FileViolations | grader/src/main/java/com/javachallenge/grader/parser/CheckstyleParser.java:26-39 | A file element yields one violation per error element below it, in document order. The k-th violation carries the file's name and is built from the k-th error element. |
| Checkstyle.AllFilesCount | grader/src/main/java/com/javachallenge/grader/parser/CheckstyleParser.java:23-40 | A readable result yields as many violations as there are error elements under its file elements. |
| Checkstyle.Parse | grader/src/main/java/com/javachallenge/grader/parser/CheckstyleParser.java:16-45 | A missing result file yields nothing. An unreadable one yields exactly one "parse-error" entry carrying the parser's message. A readable one lists the violations of each file element in turn, in document order, and nothing else. |
| Checkstyle.UnreadableResultCostsTwoPoints | grader/src/main/java/com/javachallenge/grader/parser/CheckstyleParser.java:41-43 | An unreadable result costs exactly two style points. |
| Checkstyle.CleanResultKeepsStylePoints | grader/src/main/java/com/javachallenge/grader/parser/CheckstyleParser.java:23-40 | A result with no file element yields no violation and keeps all 20 style points. |
| Bundle.Slug | backend/src/main/java/com/javachallenge/zip/ZipBundleService.java:16 | The slug uses only a-z, 0-9 and '-', never has two dashes in a row, and is empty only for an empty theme. |
| Bundle.SlugKeepsAlnums | backend/src/main/java/com/javachallenge/zip/ZipBundleService.java:16 | The slug keeps every letter and digit of the lower-cased theme, in order. Only the separators change. |
| Bundle.SlugIdempotent | backend/src/main/java/com/javachallenge/zip/ZipBundleService.java:16 | Slugging a slug changes nothing. |
| Bundle.PomNamesArtifact | backend/src/main/java/com/javachallenge/zip/ZipBundleService.java:43-86 | The generated pom declares the given artifact id. |
| Bundle.ReadmeOpensWithTitle | backend/src/main/java/com/javachallenge/zip/ZipBundleService.java:88-92 | For a one-line title, the README's first line is "# " followed by the title. |
| Bundle.AddEntry | backend/src/main/java/com/javachallenge/zip/ZipBundleService.java:34-41 | An entry's declared size is the length of the UTF-8 encoding of its content, which decodes back to the content. |
| Bundle.WriteAll | backend/src/main/java/com/javachallenge/zip/ZipBundleService.java:18-31 | Entries are written in order under the folder. Writing stops at the first missing content, which fails the bundle, and succeeds exactly when every content is present. |
| Bundle.WriteBundle | backend/src/main/java/com/javachallenge/zip/ZipBundleService.java:15-32 | The bundle succeeds exactly when the requirements, the legacy code and the test suite are present. It then has six entries, each under the slug folder with its UTF-8 size. A failed bundle has written two to four entries. |
| Bundle.BundleContents | backend/src/main/java/com/javachallenge/zip/ZipBundleService.java:20-30 | A complete bundle carries, in this order: the pom, the README, the requirements, the legacy code, the test suite and the checkstyle configuration. |
| Bundle.BundleIgnoresCheckstyleRules | backend/src/main/java/com/javachallenge/zip/ZipBundleService.java:94-111 | The challenge's checkstyle rules have no influence on the bundle. |
| ChallengeApi.List | backend/src/main/java/com/javachallenge/challenge/ChallengeController.java:24-32 | The reply is always 200. Given a topic, the body is that topic's challenges; without one, all challenges. |
| ChallengeApi.DifficultyIgnored | backend/src/main/java/com/javachallenge/challenge/ChallengeController.java:25-31 | The difficulty parameter has no effect on the listing. |
| ChallengeApi.TopicListingMatches | backend/src/main/java/com/javachallenge/challenge/ChallengeController.java:28-30 | Every challenge listed for a topic belongs to that topic. |
| ChallengeApi.Get | backend/src/main/java/com/javachallenge/challenge/ChallengeController.java:34-40 | The reply is 404 with no body exactly when no challenge has the id. Otherwise it is 200 with the DTO of a challenge that has it. |
| ChallengeApi.DownloadOf | backend/src/main/java/com/javachallenge/challenge/ChallengeController.java:42-50 | The download fails with "Challenge not found" exactly when no challenge has the id. Otherwise it is a zip whose header and bundle belong to a challenge with that id. |
| ChallengeApi.DispositionRoundTrip | backend/src/main/java/com/javachallenge/challenge/ChallengeController.java:46-54 | A client reading the Content-Disposition value (section 4.1 of RFC 6266) gets back exactly the file name. Every character of the name is a token character, so the quoting is never broken. |
| ChallengeApi.FileNameMatchesFolder | backend/src/main/java/com/javachallenge/challenge/ChallengeController.java:47-54 | The downloaded file is named after the same slug as the folder inside the zip. |
| ChallengeGeneration.PromptSlots | backend/src/main/java/com/javachallenge/ai/ChallengeGenerationService.java:45-63 | For a one-line title and theme, the prompt opens with its eight header lines. The SEED TITLE and SEED THEME lines both carry the seed's title, and NEW THEME REQUESTED carries the requested theme. |
| ChallengeGeneration.HeaderLinesAreLines | backend/src/main/java/com/javachallenge/ai/ChallengeGenerationService.java:46-55 | Each of the prompt's header lines is a single line when the title and theme are. |
| ChallengeGeneration.Story | backend/src/main/java/com/javachallenge/ai/ChallengeGenerationService.java:78 | The story is the response cut to at most 500 UTF-16 code units, counted as Java's `length()` counts them. It is the whole response when that fits. Otherwise it is exactly 500 units long, or 499 when the cut would split a character outside the Basic Multilingual Plane. |
| ChallengeGeneration.StoryOfBmpText | backend/src/main/java/com/javachallenge/ai/ChallengeGenerationService.java:78 | For a response written within the Basic Multilingual Plane, the story is its first 500 characters, or the whole response when it is shorter. |
| ChallengeGeneration.ParseAndSave | backend/src/main/java/com/javachallenge/ai/ChallengeGenerationService.java:65-83 | The variant copies topic, difficulty, hidden tests, checkstyle rules, legacy code, requirements and test suite from its seed. It is marked as AI-generated, is titled "AI Variant: " plus the theme, and keeps the cut response as its story. |
| ChallengeGeneration.VariantsShareSeedContent | backend/src/main/java/com/javachallenge/ai/ChallengeGenerationService.java:65-83 | Two variants of one seed differ at most in title, theme and story. |
| ChallengeGeneration.TitleNamesTheme | backend/src/main/java/com/javachallenge/ai/ChallengeGenerationService.java:77 | The theme can be read back from the title, after its "AI Variant: " prefix. |
| Users.FindByGithubId | backend/src/main/java/com/javachallenge/user/UserService.java:16 | The lookup finds a stored user with the GitHub id. It finds none exactly when no stored user has it. |
| Users.FindOrCreate | backend/src/main/java/com/javachallenge/user/UserService.java:14-23 | A known GitHub id returns the stored user and leaves the store unchanged, name and avatar included. An unknown one appends exactly one user with the given id, name and avatar. GitHub ids stay unique. |
| Users.FindOrCreateIdempotent | backend/src/main/java/com/javachallenge/user/UserService.java:14-23 | A second login with the same GitHub id returns the same user and adds nothing, whatever name and avatar it brings. The store grows by at most one. |
| Users.FindByUsername | backend/src/main/java/com/javachallenge/user/UserService.java:25-28 | The lookup succeeds exactly when one stored user has the name, and returns that user. It fails with "User not found: " plus the name exactly when nobody has it. |
| Security.FirstMatch | backend/src/main/java/com/javachallenge/config/SecurityConfig.java:23-28 | Rules are tried in declaration order and the earliest matching rule is chosen. No match means no rule applies. |
| Security.DecideInOrder | backend/src/main/java/com/javachallenge/config/SecurityConfig.java:23-28 | Reading the table top to bottom, the first matching rule decides. A request that none of the first four rules matches falls to the catch-all and needs a login. |
| Security.RulesMatch | backend/src/main/java/com/javachallenge/config/SecurityConfig.java:24-27 | The catalogue rule matches exactly GETs on /api/challenges and below it. The profile and health rules match exactly their own path, and the submissions rule matches /api/submissions and everything below it, for any method. |
| Security.DecideMeansPublic | backend/src/main/java/com/javachallenge/config/SecurityConfig.java:23-28 | A request is allowed without login exactly when it is a GET on /api/challenges or below it, or asks for /actuator/health. |
| Security.GenerateNeedsLogin | backend/src/main/java/com/javachallenge/config/SecurityConfig.java:24-28 | A POST to /api/challenges/generate needs a login, although GETs on that path are public. |
| Security.SubmissionsNeedLogin | backend/src/main/java/com/javachallenge/config/SecurityConfig.java:26 | Every request under /api/submissions needs a login, whatever its method. |
| Security.CatalogueIsPublic | backend/src/main/java/com/javachallenge/config/SecurityConfig.java:24 | Every GET below /api/challenges/ is public. |
| UiRules.StatusColor | frontend/src/lib/utils.ts:8-16 | Passed, failed, running and error each get their own colour. Every other string, "pending" included, gets the muted colour, and only those do. |
| UiRules.StatusColorsDistinct | frontend/src/lib/utils.ts:8-16 | Over the five submission statuses, the colour tells the status apart. |
| UiRules.StatusColorsOfSubmissions | frontend/src/lib/utils.ts:8-16 | Among submission statuses, only "pending" is shown muted. |
| UiRules.ScoreColor | frontend/src/lib/utils.ts:18-22 | The colour is green exactly from 80, amber exactly from 60 to 79 and red exactly below 60. Every score gets one of the three. |
| UiRules.ScoreColorMonotone | frontend/src/lib/utils.ts:18-22 | A higher score never gets a lower colour band. |
| UiRules.DifficultyBadge | frontend/src/lib/utils.ts:24-28 | The red badge appears exactly for "hard"; every other difficulty gets the amber one. |
| FrontendTypes.GetChallengeType | frontend/src/types/index.ts:49-51 | A present, non-empty type is returned as is. A missing or empty one falls back to "refactor". The result is never empty. |
| FrontendTypes.CategoriesCoverTopics | frontend/src/types/index.ts:40-47 | Exactly the topics 1 to 6 have a category, each with a non-empty name and description. |
| Entities.StatusNameRoundTrip | backend/src/main/java/com/javachallenge/submission/Submission.java:30-31 | Reading back the stored name of any status gives that status, so the five names are distinct. |
| Entities.FindSubmission | backend/src/main/java/com/javachallenge/submission/SubmissionService.java:90-92 | The lookup finds a stored submission with the id. It finds none only when no stored submission has it. |
| Text.TrimEmptyIffBlank | frontend/src/components/challenges/GradingTerminal.tsx:69 | `trim()` leaves nothing exactly when the piece consists of whitespace only. |
| Text.IntDecimalRoundTrip | grader/src/main/java/com/javachallenge/grader/parser/CheckstyleParser.java:48 | Java's integer parser reads every 32-bit integer back from its decimal form. |
| Text.JavaPrefix | backend/src/main/java/com/javachallenge/ai/ChallengeGenerationService.java:78 | `substring(0, limit)` keeps a prefix of at most `limit` UTF-16 code units, and the longest one: the next character would not fit. A string within the limit is kept whole. |
| Utf8.DecodeEncode | backend/src/main/java/com/javachallenge/zip/ZipBundleService.java:35 | The UTF-8 encoding of any string decodes back to that string. |
| Xml.ElementsByTagCount | grader/src/main/java/com/javachallenge/grader/parser/SurefireParser.java:29 | `getElementsByTagName` lists as many elements as the tree holds with that tag. |
| Sorting.SortIsStable | seeds/topic-5-financial-report/BadCode.java:21-26 | Sorting keeps the input order among elements with equal keys. |
| AtmLogger.GenerateReport | seeds/topic-1-atm-logger/BadCode.java:22-36 | The report is the header followed by each transaction and a newline, in order. Its length is the header's plus the sum of each transaction's length plus one. |
| AtmLogger.BodySnoc | seeds/topic-1-atm-logger/BadCode.java:29-32 | One more transaction adds exactly its own line at the end: the loop's step. |
| AtmLogger.ReportLines | seeds/topic-1-atm-logger/BadCode.java:22-36 | Read back line by line, the report gives the title, then the transactions in order, then the empty piece after the final newline. |
| AtmLogger.EmptyReport | seeds/topic-1-atm-logger/BadCode.java:26-35 | With no transactions the report is the header alone. |
| VehicleFleet.Equals | seeds/topic-2-vehicle-fleet/BadCode.java:33-38 | Anything but a vehicle is never equal. A vehicle is equal exactly when it has the same plate, and a missing plate on the receiver throws. |
| VehicleFleet.EqualsIgnoresMileageAndHistory | seeds/topic-2-vehicle-fleet/BadCode.java:34-38 | Two vehicles with the same plate are equal whatever their mileage and history. |
| VehicleFleet.EqualsIsEquivalence | seeds/topic-2-vehicle-fleet/BadCode.java:34-38 | On vehicles with plates, equality is reflexive, symmetric and transitive. |
| VehicleFleet.Vehicle.GetServiceHistory | seeds/topic-2-vehicle-fleet/BadCode.java:28-30 | The history accessor hands out the vehicle's own array, not a copy. |
| ShoppingCartSeed.Added | seeds/topic-3-ecommerce-cart/BadCode.java:18-26 | Adding to a full cart doubles the array and keeps the used slots. The item lands in the first free slot, and the slots before it are unchanged. |
| ShoppingCartSeed.AddAllStores | seeds/topic-3-ecommerce-cart/BadCode.java:18-26 | Items added one after another sit in the array in arrival order, after the old ones. |
| ShoppingCartSeed.FilledCartHoldsItems | seeds/topic-3-ecommerce-cart/BadCode.java:14-26 | A new cart filled with some items holds exactly those items in its first slots, however often it grew. |
| ShoppingCartSeed.CalculateTotal | seeds/topic-3-ecommerce-cart/BadCode.java:37-45 | The total is ten per item in the cart. |
| ShippingRegistry.RegisterShipment | seeds/topic-4-shipping-logistics/BadCode.java:46-48 | Registering appends the container and leaves earlier entries alone. |
| ShippingRegistry.CalculateTotalWeight | seeds/topic-4-shipping-logistics/BadCode.java:52-59 | The weight is ten per container. |
| ShippingRegistry.CollectTrackingIds | seeds/topic-4-shipping-logistics/BadCode.java:63-67 | The destination keeps its contents and gains every source tracking id, in source order. |
| ShippingRegistry.TrackingIdsAppend | seeds/topic-4-shipping-logistics/BadCode.java:63-67 | Collecting from two lists in turn is collecting from their concatenation. |
| FinancialReport.SortByAmount | seeds/topic-5-financial-report/BadCode.java:19-28 | The result is a permutation of the transactions, in non-decreasing amount. |
| FinancialReport.SortByAmountIsStable | seeds/topic-5-financial-report/BadCode.java:19-28 | Transactions with equal amounts keep their input order. |
| FinancialReport.FilterDebitsMembers | seeds/topic-5-financial-report/BadCode.java:41-45 | A transaction is kept exactly when it is a debit of the input. |
| FinancialReport.FilterDebitsAppend | seeds/topic-5-financial-report/BadCode.java:41-45 | Filtering keeps the input order: filtering a concatenation filters each part. |
| FinancialReport.ExtractDebitCategories | seeds/topic-5-financial-report/BadCode.java:31-37 | The result is the categories of the debit transactions, in input order, which is the categories of the filtered debits. |
| LibraryCatalog.SearchByPrefix | seeds/topic-6-library-catalog/BadCode.java:19-26 | With no title starting with the prefix the result is null. Otherwise it is the matching titles in catalogue order, never an empty list. |
| LibraryCatalog.MatchingMembers | seeds/topic-6-library-catalog/BadCode.java:20-23 | A title is found exactly when it is in the catalogue and starts with the prefix. |
| LibraryCatalog.GetByIndex | seeds/topic-6-library-catalog/BadCode.java:37-39 | An index inside the catalogue returns its title. Any other index fails with the list's out-of-bounds message. |
| LibraryCatalog.FoundTitlesAreIndexed | seeds/topic-6-library-catalog/BadCode.java:19-39 | Every title the search finds can be fetched by some position in the catalogue. |

## Left out

- Input and output are parameters of the model: the file system, the zip encoder, the temporary files, Docker and the sandboxed Maven run, HTTP between the services, and the LLM call. The grading service's listing of report files, their parsed documents and the sandbox's exit code and output are inputs.
- JSON serialisation by Jackson is not modelled beyond whether the stream's mapper can write the DTO at all (`GradingStream.WriteDto`). The grading service's result lists are kept as lists, not JSON strings, and the stored submission keeps the JSON strings as given. The client reads only the status payload, with a parser for exactly the shape the server writes.
- Concurrency and timing are not modelled: the 800 ms scheduler, the five-minute emitter timeout, the EventSource's retry delay, `Date.now()` timestamps, and the values of `submittedAt`/`completedAt`. The stream is modelled as the sequence of rows its polls read. A reconnection is modelled as a new connection to an unchanged row.
- GraderApi.Extract: input and output failures during extraction and injection are not inputs of the model. Examples are a truncated zip, a `Files.copy` onto the work directory itself for an entry such as ".", and a failing `Files.writeString`. Each would end in the catch block's error reply that `GraderApi.FailuresScoreZero` describes.
- `@Async` is modelled by its effect: the intended run grades after the reply, and the run as written grades before it.
- A failing `emitter.send` (a client that has gone away) is not modelled. It would end the stream through the same `catch` block as a failing mapper.
- Floating point is left out: `avgScore` and its rounding, test times, and `sumWithdrawals` in the ATM seed. Amounts in the financial seed are integers, with `Double.compare` as integer order.
- Scoring.Proportional: `Math.round` over a `double` quotient is modelled as exact rational rounding, halves up. A quotient that binary floating point lands just below one half may round differently.
- Submissions.StatsForUser: `avgScore` is not part of the statistics, because it is floating point.
- Identifiers are UUIDs in the code and natural numbers here. Only equality between them is used.
- `toLowerCase` is modelled for ASCII letters only. Other characters keep their case.
- String lengths count Unicode scalar values, not UTF-16 code units. The exception is `ChallengeGeneration.Story`, which counts code units the way Java's `length()` does. Elsewhere, the only lengths affected are the stream's log offsets, for characters outside the Basic Multilingual Plane.
- ChallengeGeneration.Story: when the 500th UTF-16 code unit is the first half of a surrogate pair, Java keeps that lone half. A string of scalar values cannot hold it, so the model's story stops before the pair, one unit short.
- `Integer.parseInt` is modelled for ASCII digits only.
- Users.FindByUsername: a name held by more than one user fails with a generic non-unique message. The repository's behaviour then is Spring Data's, which is not part of this model.
- Submissions.Standings: the grouping `HashMap` iterates in an unspecified order, and first appearance among the passed rows is used. Only the order of equal totals on the leaderboard depends on it.
- Submissions.SubmissionsOf: the ordering by submission time comes from a repository query and is not modelled. The reply keeps table order.
- ChallengeApi.List: the listing order comes from a delegating service, which is not part of this model. Table order is used.
- Security.PatternMatches: Spring's path matcher is modelled as "this path, or this path followed by '/' and more" for `/**` patterns, and as equality otherwise.
- The AI controller, the user controller, the challenge service, the OAuth success handler and the grading service HTTP client are not part of this model. They are thin delegators.
- The exception message texts of Java's `NullPointerException` and of the repository are not modelled. They are carried as opaque strings where they reach a log.
- The seeds' `main` methods and `printIsbnMap` are left out: they only print. The HashSet demonstration depends on identity hash codes.
- The shipping seed's raw-type cast lives only in `main`. Its static registry and the library's static catalogue are passed in and returned as values.
- VehicleFleet.OverwriteHistory and the ShoppingCart class are stated with `modifies` and `old`. Their pure counterparts carry the counted contracts: `ShoppingCartSeed.Added` and `ShoppingCartSeed.AddAllStores`.

## Findings

| source | as written | input that shows it | evidently intended | confidence | as-written member | corrected member |
|---|---|---|---|---|---|---|
| backend/src/main/java/com/javachallenge/submission/SubmissionController.java:101-111 | The `complete` payload is written by a bare `new ObjectMapper()`. The DTO always holds `submittedAt`, an `Instant` (Submission.java:51), which Jackson 2.12 and later refuse without the `java.time` module. The `catch` block then calls `completeWithError`, so `complete` is never sent. The client's error listener does not close the EventSource, and the browser reconnects to a fresh stream that resends the whole log. | Any submission that reaches passed, failed or error | A `complete` event with the DTO, after which the terminal closes and shows the record | high (the `jakarta.persistence` imports place the backend on Spring Boot 3, whose Jackson is 2.14 or later); not executed | GradingPipeline.ReconnectRepeatsLog | GradingPipeline.GradingSeenLive |
| backend/src/main/java/com/javachallenge/submission/SubmissionService.java:54 | `createSubmission` calls `gradeAsync` on `this`, which bypasses Spring's `@Async` proxy. Grading runs before the reply, so the 202 reply carries the graded submission, and an exception from the final save reaches the submit request. The client opens the stream only after the reply, so it never sees grading live. | Any submission of a known challenge by a known user | A 202 reply with the pending submission, grading continuing in the background | high; not executed | GradingStream.SubmitAsWrittenRepliesGraded | GradingStream.Submit |
