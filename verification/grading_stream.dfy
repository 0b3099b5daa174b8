/**
 * The submission endpoints (backend/src/main/java/com/javachallenge/submission/SubmissionController.java):
 * the 401/404 guards, and one tick of the `streamGrading` poller, which
 * sends the part of the grading service log not sent yet, then a status payload, then
 * `complete` once the submission is in a terminal state. Events are the
 * named events of a Server-Sent Events stream (section 9.2 of the WHATWG HTML
 * Living Standard) before framing; the 800 ms schedule is a sequence of
 * observations of the submission row.
 */
module GradingStream {
  import opened Wrappers
  import opened Text
  import opened Entities
  import Submissions

  /* ---------- Endpoint guards ---------- */

  /** `submit`: 401 without a principal; otherwise the new pending submission with 202, or the service's exception. */
  function Submit(login: Option<string>, challenges: seq<Challenge>, users: seq<User>, challengeId: nat,
                  id: nat, zipPath: string): (r: Result<Response<SubmissionDto>>)
    ensures login.None? ==> r == Ok(Response(401, None))
    ensures login.Some? ==> match Submissions.CreateSubmission(challenges, users, challengeId, login.value, id, zipPath)
                            case Err(m) => r == Err(m)
                            case Ok(s) => r == Ok(Response(202, Some(ToSubmissionDto(s)))) && s.status == Pending
  {
    match login
    case None => Ok(Response(401, None))
    case Some(name) =>
      match Submissions.CreateSubmission(challenges, users, challengeId, name, id, zipPath)
      case Err(m) => Err(m)
      case Ok(s) => Ok(Response(202, Some(ToSubmissionDto(s))))
  }

  /**
   * `submit` as written: the service grades before it returns, so the 202
   * reply carries the graded submission, and a failing final save reaches the
   * caller as an exception.
   */
  function SubmitAsWritten(login: Option<string>, challenges: seq<Challenge>, users: seq<User>, challengeId: nat,
                           id: nat, zipPath: string, outcome: Submissions.Outcome, finalSave: Submissions.Save)
    : (r: Result<Response<SubmissionDto>>)
    ensures login.None? ==> r == Ok(Response(401, None))
    ensures login.Some? ==>
              match Submissions.CreateSubmissionAsWritten(challenges, users, challengeId, login.value, id, zipPath,
                                                          outcome, finalSave)
              case Err(m) => r == Err(m)
              case Ok(s) => r == Ok(Response(202, Some(ToSubmissionDto(s))))
  {
    match login
    case None => Ok(Response(401, None))
    case Some(name) =>
      match Submissions.CreateSubmissionAsWritten(challenges, users, challengeId, name, id, zipPath, outcome, finalSave)
      case Err(m) => Err(m)
      case Ok(s) => Ok(Response(202, Some(ToSubmissionDto(s))))
  }

  /**
   * The discrepancy: where the corrected `submit` replies with a `pending`
   * submission, the as-written one replies with a terminal status for the
   * very same request, never `pending`.
   */
  lemma SubmitAsWrittenRepliesGraded(challenges: seq<Challenge>, users: seq<User>, challengeId: nat, username: string,
                                     id: nat, zipPath: string, outcome: Submissions.Outcome)
    requires Submit(Some(username), challenges, users, challengeId, id, zipPath).Ok?
    ensures Submit(Some(username), challenges, users, challengeId, id, zipPath).value.body.value.status
         == StatusName(Pending)
    ensures var r := SubmitAsWritten(Some(username), challenges, users, challengeId, id, zipPath, outcome,
                                     Submissions.Saved);
            r.Ok? && r.value.code == 202 && r.value.body.Some? &&
            r.value.body.value.status in {StatusName(Passed), StatusName(Failed), StatusName(Error)}
  {
    var pending := Submissions.CreateSubmission(challenges, users, challengeId, username, id, zipPath);
    var graded := Submissions.CreateSubmissionAsWritten(challenges, users, challengeId, username, id, zipPath,
                                                        outcome, Submissions.Saved);
    assert pending.Ok?;
    assert graded.Ok? && IsTerminal(graded.value.status);
  }

  /** `get`: 404 for an unknown id, else 200 with the DTO of the stored row. */
  function Get(all: seq<Submission>, id: nat): (r: Response<SubmissionDto>)
    ensures (forall s :: s in all ==> s.id != id) <==> r == Response(404, None)
    ensures r.code == 200 <==> r.body.Some?
    ensures r.body.Some? ==> exists s :: s in all && s.id == id && r.body.value == ToSubmissionDto(s)
  {
    match FindSubmission(all, id)
    case None => Response(404, None)
    case Some(s) => Response(200, Some(ToSubmissionDto(s)))
  }

  /** `/my`: 401 without a principal, else 200 with the user's submissions. */
  function My(login: Option<string>, users: seq<User>, all: seq<Submission>): (r: Result<Response<seq<SubmissionDto>>>)
    ensures login.None? ==> r == Ok(Response(401, None))
    ensures login.Some? ==> (r.Err? <==> Submissions.SubmissionsOf(users, all, login.value).Err?)
    ensures login.Some? && r.Ok? ==>
              r.value == Response(200, Some(Submissions.SubmissionsOf(users, all, login.value).value))
  {
    match login
    case None => Ok(Response(401, None))
    case Some(name) =>
      match Submissions.SubmissionsOf(users, all, name)
      case Err(m) => Err(m)
      case Ok(dtos) => Ok(Response(200, Some(dtos)))
  }

  /** `/my/stats`: 401 without a principal, else 200 with the user's statistics. */
  function MyStats(login: Option<string>, users: seq<User>, all: seq<Submission>): (r: Result<Response<Submissions.Stats>>)
    ensures login.None? ==> r == Ok(Response(401, None))
    ensures login.Some? ==> (r.Err? <==> Submissions.StatsForUser(users, all, login.value).Err?)
    ensures login.Some? && r.Ok? ==>
              r.value == Response(200, Some(Submissions.StatsForUser(users, all, login.value).value))
  {
    match login
    case None => Ok(Response(401, None))
    case Some(name) =>
      match Submissions.StatsForUser(users, all, name)
      case Err(m) => Err(m)
      case Ok(st) => Ok(Response(200, Some(st)))
  }

  /* ---------- One tick of the stream ---------- */

  /**
   * The object mapper that writes the `complete` payload. The handler builds a
   * bare `new ObjectMapper()`, which has no module for `java.time` types;
   * Spring's own mapper registers one.
   */
  datatype Mapper = BareMapper | JavaTimeMapper

  /** The mapper the handler uses. */
  const HandlerMapper: Mapper := BareMapper

  /** The start of Jackson's `InvalidDefinitionException` message for an unsupported `java.time` type. */
  const JavaTimeUnsupported: string := "Java 8 date/time type `java.time.Instant` not supported by default"

  /**
   * `writeValueAsString` of a submission DTO. Every DTO carries `submittedAt`,
   * an `Instant` the entity sets when it is created, so only a mapper with a
   * `java.time` module writes it; the bare mapper throws.
   */
  function WriteDto(mapper: Mapper, dto: SubmissionDto): (r: Result<SubmissionDto>)
    ensures r.Ok? <==> mapper == JavaTimeMapper
    ensures r.Ok? ==> r.value == dto
    ensures r.Err? ==> r.message == JavaTimeUnsupported
  {
    match mapper
    case JavaTimeMapper => Ok(dto)
    case BareMapper => Err(JavaTimeUnsupported)
  }

  /**
   * A named event as sent; the `complete` payload is the serialised DTO.
   * `Aborted` is `completeWithError`: the response ends without a further
   * event, and the client sees an error on the connection.
   */
  datatype ServerEvent =
    | LogSent(data: string)
    | StatusSent(data: string)
    | CompleteSent(dto: SubmissionDto)
    | ErrorSent(data: string)
    | Aborted(message: string)

  /** The events after which the scheduler shuts down. */
  predicate EndsStream(e: ServerEvent) {
    e.CompleteSent? || e.ErrorSent? || e.Aborted?
  }

  const NotFoundPayload: string := "{\"message\":\"Submission not found\"}"

  const StatusPrefix: string := "{\"status\":\""
  const ScoreMember: string := ",\"score\":"

  /** The score member of the status payload, present only when the score is not null. */
  function ScorePart(score: Option<int>): string {
    if score.Some? then ScoreMember + IntToDecimal(score.value) else ""
  }

  /** The status payload: the status, and the score only when it is not null. */
  function StatusJson(status: string, score: Option<int>): string {
    StatusPrefix + status + "\"" + ScorePart(score) + "}"
  }

  /** Events sent by a tick, the new count of log characters sent, and whether the stream has ended. */
  datatype Tick = Tick(events: seq<ServerEvent>, last: nat, done: bool)

  /** The `log` event of a tick: the part of the log beyond the `last` characters already sent, if any. */
  function LogEvents(last: nat, log: string): seq<ServerEvent> {
    if |log| > last then [LogSent(log[last..])] else []
  }

  /**
   * The event that ends the stream on a terminal row: `complete` with the DTO
   * when the mapper writes it, otherwise the mapper's exception, which the
   * `catch` block hands to `completeWithError`.
   */
  function Finish(mapper: Mapper, row: Submission): (e: ServerEvent)
    ensures EndsStream(e)
    ensures e.CompleteSent? <==> mapper == JavaTimeMapper
    ensures e.CompleteSent? ==> e.dto == ToSubmissionDto(row)
    ensures e.Aborted? ==> e.message == JavaTimeUnsupported
  {
    match WriteDto(mapper, ToSubmissionDto(row))
    case Ok(d) => CompleteSent(d)
    case Err(m) => Aborted(m)
  }

  /** What follows the `log` event: the status event, and the end of the stream when the status is terminal. */
  function Closing(mapper: Mapper, row: Submission): seq<ServerEvent> {
    [StatusSent(StatusJson(StatusName(row.status), row.score))] +
    (if IsTerminal(row.status) then [Finish(mapper, row)] else [])
  }

  /** One tick, given the row the poller read (`None` when the id is unknown) and the count sent so far. */
  function TickOnce(mapper: Mapper, last: nat, row: Option<Submission>): (t: Tick)
    ensures t.last >= last
    ensures row.None? ==> t == Tick([ErrorSent(NotFoundPayload)], last, true)
    ensures row.Some? ==> (t.done <==> IsTerminal(row.value.status))
    ensures |t.events| > 0 && (t.done <==> EndsStream(t.events[|t.events| - 1]))
    ensures row.Some? && IsTerminal(row.value.status) ==>
              t.events[|t.events| - 1] == (if mapper == JavaTimeMapper then CompleteSent(ToSubmissionDto(row.value))
                                          else Aborted(JavaTimeUnsupported))
  {
    match row
    case None => Tick([ErrorSent(NotFoundPayload)], last, true)
    case Some(sub) =>
      var log := Submissions.Log(sub);
      Tick(LogEvents(last, log) + Closing(mapper, sub), if |log| > last then |log| else last, IsTerminal(sub.status))
  }

  /** The events of a whole stream, the final count, and how many observations were used. */
  datatype StreamRun = StreamRun(events: seq<ServerEvent>, last: nat, used: nat)

  /** Ticks over successive observations until one ends the stream (the scheduler then shuts down). */
  function Stream(mapper: Mapper, last: nat, rows: seq<Option<Submission>>): (r: StreamRun)
    ensures r.used <= |rows| && (|rows| > 0 ==> r.used >= 1)
    ensures r.last >= last
    decreases |rows|
  {
    if |rows| == 0 then StreamRun([], last, 0)
    else
      var t := TickOnce(mapper, last, rows[0]);
      if t.done then StreamRun(t.events, t.last, 1)
      else
        var rest := Stream(mapper, t.last, rows[1..]);
        StreamRun(t.events + rest.events, rest.last, rest.used + 1)
  }

  /** How a stream unfolds over its first observation. */
  lemma StreamStep(mapper: Mapper, last: nat, rows: seq<Option<Submission>>)
    requires |rows| > 0
    ensures var t := TickOnce(mapper, last, rows[0]);
            var r := Stream(mapper, last, rows);
            if t.done || |rows| == 1 then r == StreamRun(t.events, t.last, 1)
            else var rest := Stream(mapper, t.last, rows[1..]);
                 r == StreamRun(t.events + rest.events, rest.last, rest.used + 1)
  {
    var t := TickOnce(mapper, last, rows[0]);
    if !t.done && |rows| == 1 {
      assert Stream(mapper, t.last, rows[1..]) == StreamRun([], t.last, 0);
      assert t.events + [] == t.events;
    }
  }

  /** Only the final event of a stream can end it: nothing follows `complete`, the not-found error or an abort. */
  lemma {:induction false} NothingAfterEnd(mapper: Mapper, last: nat, rows: seq<Option<Submission>>)
    ensures forall i :: 0 <= i < |Stream(mapper, last, rows).events| - 1 ==> !EndsStream(Stream(mapper, last, rows).events[i])
    decreases |rows|
  {
    if |rows| > 0 {
      var t := TickOnce(mapper, last, rows[0]);
      if !t.done {
        NothingAfterEnd(mapper, t.last, rows[1..]);
        var rest := Stream(mapper, t.last, rows[1..]).events;
        assert forall i :: 0 <= i < |t.events| ==> !EndsStream(t.events[i]);
        forall i | 0 <= i < |t.events + rest| - 1
          ensures !EndsStream((t.events + rest)[i])
        {
          if i < |t.events| {
            assert (t.events + rest)[i] == t.events[i];
          } else {
            var k := i - |t.events|;
            assert 0 <= k < |rest| - 1;
            assert !EndsStream(rest[k]);
            assert (t.events + rest)[i] == rest[k];
          }
        }
      }
    }
  }

  /** A stream that used all observations without ending saw no terminal row and no missing row. */
  lemma {:induction false} EndsOnlyOnTerminal(mapper: Mapper, last: nat, rows: seq<Option<Submission>>)
    requires forall i :: 0 <= i < |rows| ==> rows[i].Some? && !IsTerminal(rows[i].value.status)
    ensures Stream(mapper, last, rows).used == |rows|
    ensures forall i :: 0 <= i < |Stream(mapper, last, rows).events| ==> !EndsStream(Stream(mapper, last, rows).events[i])
    decreases |rows|
  {
    if |rows| > 0 {
      var t := TickOnce(mapper, last, rows[0]);
      EndsOnlyOnTerminal(mapper, t.last, rows[1..]);
      var rest := Stream(mapper, t.last, rows[1..]).events;
      forall i | 0 <= i < |t.events + rest|
        ensures !EndsStream((t.events + rest)[i])
      {
        if i >= |t.events| {
          assert (t.events + rest)[i] == rest[i - |t.events|];
        }
      }
    }
  }

  /**
   * The bare mapper never lets a `complete` event out: whatever the rows, the
   * stream the handler sends contains none.
   */
  lemma {:induction false} BareMapperNeverCompletes(last: nat, rows: seq<Option<Submission>>)
    ensures forall i :: 0 <= i < |Stream(BareMapper, last, rows).events| ==>
              !Stream(BareMapper, last, rows).events[i].CompleteSent?
    decreases |rows|
  {
    if |rows| > 0 {
      var t := TickOnce(BareMapper, last, rows[0]);
      assert forall i :: 0 <= i < |t.events| ==> !t.events[i].CompleteSent? by {
        if rows[0].Some? {
          var sub := rows[0].value;
          var le := LogEvents(last, Submissions.Log(sub));
          var cl := Closing(BareMapper, sub);
          assert t.events == le + cl;
          assert forall i :: 0 <= i < |cl| ==> !cl[i].CompleteSent?;
        }
      }
      if !t.done {
        BareMapperNeverCompletes(t.last, rows[1..]);
        var rest := Stream(BareMapper, t.last, rows[1..]).events;
        forall i | 0 <= i < |t.events + rest|
          ensures !(t.events + rest)[i].CompleteSent?
        {
          if i >= |t.events| {
            assert (t.events + rest)[i] == rest[i - |t.events|];
          }
        }
      }
    }
  }

  /** A stream over rows of which only the last may be terminal reads every row. */
  lemma {:induction false} ReadsUpToTerminal(mapper: Mapper, last: nat, rows: seq<Option<Submission>>)
    requires forall i :: 0 <= i < |rows| ==> rows[i].Some?
    requires forall i :: 0 <= i < |rows| - 1 ==> !IsTerminal(rows[i].value.status)
    ensures Stream(mapper, last, rows).used == |rows|
    decreases |rows|
  {
    if |rows| > 1 {
      var t := TickOnce(mapper, last, rows[0]);
      ReadsUpToTerminal(mapper, t.last, rows[1..]);
    }
  }

  /** The text carried by the `log` events, concatenated in order. */
  function SentLog(events: seq<ServerEvent>): string {
    if |events| == 0 then ""
    else (if events[0].LogSent? then events[0].data else "") + SentLog(events[1..])
  }

  lemma {:induction false} SentLogAppend(a: seq<ServerEvent>, b: seq<ServerEvent>)
    ensures SentLog(a + b) == SentLog(a) + SentLog(b)
    decreases |a|
  {
    if |a| == 0 {
      assert a + b == b;
    } else {
      assert (a + b)[1..] == a[1..] + b;
      SentLogAppend(a[1..], b);
    }
  }

  /** The observed rows are all present and their logs only grow. */
  predicate GrowingRows(rows: seq<Option<Submission>>) {
    (forall i :: 0 <= i < |rows| ==> rows[i].Some?) &&
    (forall i, j :: 0 <= i <= j < |rows| ==> Submissions.Log(rows[i].value) <= Submissions.Log(rows[j].value))
  }

  /** One tick over a row whose log extends what was sent sends exactly the missing suffix. */
  lemma TickSendsDelta(mapper: Mapper, sent: string, row: Submission)
    requires sent <= Submissions.Log(row)
    ensures sent + SentLog(TickOnce(mapper, |sent|, Some(row)).events) == Submissions.Log(row)
    ensures TickOnce(mapper, |sent|, Some(row)).last == |Submissions.Log(row)|
  {
    var log := Submissions.Log(row);
    var logEvents := LogEvents(|sent|, log);
    ClosingCarriesNoLog(mapper, row);
    SentLogAppend(logEvents, Closing(mapper, row));
    if |log| > |sent| {
      assert logEvents[1..] == [];
      assert sent + log[|sent|..] == log;
    } else {
      assert sent == log;
    }
  }

  /** The status event and the event that ends the stream carry no log text. */
  lemma ClosingCarriesNoLog(mapper: Mapper, row: Submission)
    ensures SentLog(Closing(mapper, row)) == ""
  {
    var c := Closing(mapper, row);
    var after := if IsTerminal(row.status) then [Finish(mapper, row)] else [];
    assert c[1..] == after;
    assert SentLog(after) == "" by {
      if IsTerminal(row.status) {
        assert after[1..] == [];
      }
    }
    assert SentLog(c) == SentLog(c[1..]);
  }

  lemma GrowingTail(rows: seq<Option<Submission>>)
    requires |rows| > 0 && GrowingRows(rows)
    ensures GrowingRows(rows[1..])
  {
    var rest := rows[1..];
    forall i, j | 0 <= i <= j < |rest|
      ensures Submissions.Log(rest[i].value) <= Submissions.Log(rest[j].value)
    {
      assert rest[i] == rows[i + 1] && rest[j] == rows[j + 1];
    }
  }

  /**
   * Continuing a stream after `sent` has gone out: while the log only grows,
   * what the ticks send completes `sent` to the log of the last row read.
   */
  lemma {:induction false} SentLogCompletes(mapper: Mapper, sent: string, rows: seq<Option<Submission>>)
    requires |rows| > 0 && GrowingRows(rows)
    requires sent <= Submissions.Log(rows[0].value)
    ensures sent + SentLog(Stream(mapper, |sent|, rows).events)
         == Submissions.Log(rows[Stream(mapper, |sent|, rows).used - 1].value)
    ensures Stream(mapper, |sent|, rows).last == |Submissions.Log(rows[Stream(mapper, |sent|, rows).used - 1].value)|
    decreases |rows|
  {
    var t := TickOnce(mapper, |sent|, rows[0]);
    if !t.done && |rows| > 1 {
      GrowingTail(rows);
      assert rows[1..][0] == rows[1];
      SentLogCompletes(mapper, Submissions.Log(rows[0].value), rows[1..]);
      SentLogStep(mapper, sent, rows);
    } else {
      TickSendsDelta(mapper, sent, rows[0].value);
      StreamStep(mapper, |sent|, rows);
    }
  }

  /** The inductive step: the first tick sends up to the first row's log, the rest of the stream the remainder. */
  lemma SentLogStep(mapper: Mapper, sent: string, rows: seq<Option<Submission>>)
    requires |rows| > 1 && (forall i :: 0 <= i < |rows| ==> rows[i].Some?) && sent <= Submissions.Log(rows[0].value)
    requires !TickOnce(mapper, |sent|, rows[0]).done
    requires Submissions.Log(rows[0].value) + SentLog(Stream(mapper, |Submissions.Log(rows[0].value)|, rows[1..]).events)
          == Submissions.Log(rows[1..][Stream(mapper, |Submissions.Log(rows[0].value)|, rows[1..]).used - 1].value)
    requires Stream(mapper, |Submissions.Log(rows[0].value)|, rows[1..]).last
          == |Submissions.Log(rows[1..][Stream(mapper, |Submissions.Log(rows[0].value)|, rows[1..]).used - 1].value)|
    ensures sent + SentLog(Stream(mapper, |sent|, rows).events)
         == Submissions.Log(rows[Stream(mapper, |sent|, rows).used - 1].value)
    ensures Stream(mapper, |sent|, rows).last == |Submissions.Log(rows[Stream(mapper, |sent|, rows).used - 1].value)|
  {
    var log := Submissions.Log(rows[0].value);
    var t := TickOnce(mapper, |sent|, rows[0]);
    TickSendsDelta(mapper, sent, rows[0].value);
    StreamContinues(mapper, |sent|, rows);
    var r := Stream(mapper, |log|, rows[1..]);
    SentLogAppend(t.events, r.events);
    assert rows[1..][r.used - 1] == rows[r.used];
    Reassemble(sent, SentLog(t.events), log, SentLog(r.events));
  }

  lemma Reassemble(a: string, d: string, log: string, rest: string)
    requires a + d == log
    ensures a + (d + rest) == log + rest
  {
  }

  /** A tick that does not end the stream is followed by the stream over the remaining rows. */
  lemma StreamContinues(mapper: Mapper, last: nat, rows: seq<Option<Submission>>)
    requires |rows| > 1 && !TickOnce(mapper, last, rows[0]).done
    ensures Stream(mapper, last, rows).events
         == TickOnce(mapper, last, rows[0]).events + Stream(mapper, TickOnce(mapper, last, rows[0]).last, rows[1..]).events
    ensures Stream(mapper, last, rows).used == Stream(mapper, TickOnce(mapper, last, rows[0]).last, rows[1..]).used + 1
    ensures Stream(mapper, last, rows).last == Stream(mapper, TickOnce(mapper, last, rows[0]).last, rows[1..]).last
  {
  }

  /**
   * The central producer invariant: a stream that starts with nothing sent
   * over rows whose log only grows sends, in its `log` events, exactly the log
   * of the last row it read, a null log counting as empty.
   */
  lemma DeltasReassembleLog(mapper: Mapper, rows: seq<Option<Submission>>)
    requires |rows| > 0 && GrowingRows(rows)
    ensures var r := Stream(mapper, 0, rows);
            SentLog(r.events) == Submissions.Log(rows[r.used - 1].value)
  {
    SentLogCompletes(mapper, "", rows);
    assert "" + SentLog(Stream(mapper, 0, rows).events) == SentLog(Stream(mapper, 0, rows).events);
  }
}
