/**
 * The live-grading pipeline end to end: the rows `gradeAsync` persists are
 * read by the stream's ticks, the events cross the wire, and the terminal's
 * listeners fold them into what the user sees. `JSON.parse` of the status
 * payload is modelled for the payload shape the backend produces.
 */
module GradingPipeline {
  import opened Wrappers
  import opened Text
  import opened Entities
  import FrontendTypes
  import Submissions
  import GradingStream
  import GradingTerminal

  /* ---------- The status payload on the client ---------- */

  /** A JSON integer as the backend writes it: an optional minus sign and decimal digits. */
  predicate IsJsonInteger(s: string) {
    (|s| > 0 && AllDigits(s)) || (|s| > 1 && s[0] == '-' && AllDigits(s[1..]))
  }

  /** What may follow the closing quote of the name: `}` alone, or a score member and then `}`. */
  predicate TailAccepted(tail: string) {
    tail == "}" ||
    (StartsWith(tail, GradingStream.ScoreMember) && EndsWith(tail, "}") &&
     |tail| >= |GradingStream.ScoreMember| + 1 &&
     IsJsonInteger(tail[|GradingStream.ScoreMember|..|tail| - 1]))
  }

  /** The payload after `{"status":"`: a quote-free name, its closing quote, and an accepted tail. */
  function ParseStatusRest(rest: string): (r: GradingTerminal.Decoded<Option<string>>)
    ensures r.Parsed? ==> r.value.Some? && '"' !in r.value.value
    ensures r.Parsed? ==> StartsWith(rest, r.value.value + "\"")
  {
    match IndexOf(rest, "\"")
    case None => GradingTerminal.Malformed
    case Some(q) =>
      var name := rest[..q];
      assert '"' !in name by {
        forall j | 0 <= j < |name|
          ensures name[j] != '"'
        {
          assert !OccursAt(rest, "\"", j);
        }
      }
      assert StartsWith(rest, name + "\"") by {
        assert OccursAt(rest, "\"", q);
        assert rest[..q + 1] == name + "\"";
      }
      if TailAccepted(rest[q + 1..]) then GradingTerminal.Parsed(Some(name))
      else GradingTerminal.Malformed
  }

  /**
   * `JSON.parse(e.data).status` for payloads of the shape
   * `{"status":"<name>"}` or `{"status":"<name>","score":<integer>}` with a
   * name free of quotes; any other text counts as malformed.
   */
  function ParseStatusPayload(json: string): (r: GradingTerminal.Decoded<Option<string>>)
    ensures r.Parsed? ==> StartsWith(json, GradingStream.StatusPrefix) && r.value.Some? && '"' !in r.value.value
    ensures r.Parsed? ==> StartsWith(json[|GradingStream.StatusPrefix|..], r.value.value + "\"")
  {
    if !StartsWith(json, GradingStream.StatusPrefix) then GradingTerminal.Malformed
    else ParseStatusRest(json[|GradingStream.StatusPrefix|..])
  }

  lemma IntToDecimalIsJsonInteger(i: int)
    ensures IsJsonInteger(IntToDecimal(i))
  {
    if i < 0 {
      var d := NatToDecimal(-i);
      assert ("-" + d)[1..] == d;
    }
  }

  /** The first quote after a quote-free name is the one right after it. */
  lemma FirstQuoteAfterName(name: string, more: string)
    requires '"' !in name
    ensures IndexOf(name + "\"" + more, "\"") == Some(|name|)
  {
    var rest := name + "\"" + more;
    assert OccursAt(rest, "\"", |name|) by {
      assert rest[|name|..|name| + 1] == "\"";
    }
    forall j: nat | j < |name|
      ensures !OccursAt(rest, "\"", j)
    {
      assert rest[j] == name[j];
      assert rest[j..j + 1] == [name[j]];
    }
  }

  /** The tail the backend writes after the name is accepted, with or without a score. */
  lemma ScorePartAccepted(score: Option<int>)
    ensures TailAccepted(GradingStream.ScorePart(score) + "}")
  {
    if score.Some? {
      var d := IntToDecimal(score.value);
      IntToDecimalIsJsonInteger(score.value);
      var tail := GradingStream.ScoreMember + d + "}";
      assert GradingStream.ScorePart(score) + "}" == tail;
      assert tail[..|GradingStream.ScoreMember|] == GradingStream.ScoreMember;
      assert tail[|tail| - 1..] == "}";
      assert tail[|GradingStream.ScoreMember|..|tail| - 1] == d;
    } else {
      assert GradingStream.ScorePart(score) + "}" == "}";
    }
  }

  /** A quote-free name, its closing quote and an accepted tail parse to that name. */
  lemma NameThenTail(name: string, tail: string)
    requires '"' !in name && TailAccepted(tail)
    ensures ParseStatusRest(name + "\"" + tail) == GradingTerminal.Parsed(Some(name))
  {
    var rest := name + "\"" + tail;
    FirstQuoteAfterName(name, tail);
    assert rest[..|name|] == name;
    assert rest[|name| + 1..] == tail;
  }

  /** The prefix is checked and then dropped. */
  lemma PrefixedPayload(rest: string)
    ensures ParseStatusPayload(GradingStream.StatusPrefix + rest) == ParseStatusRest(rest)
  {
    var json := GradingStream.StatusPrefix + rest;
    assert json[..|GradingStream.StatusPrefix|] == GradingStream.StatusPrefix;
    assert json[|GradingStream.StatusPrefix|..] == rest;
  }

  /** The client reads back the status the backend wrote, with or without a score. */
  lemma StatusPayloadRoundTrip(name: string, score: Option<int>)
    requires '"' !in name
    ensures ParseStatusPayload(GradingStream.StatusJson(name, score)) == GradingTerminal.Parsed(Some(name))
  {
    var tail := GradingStream.ScorePart(score) + "}";
    StatusJsonSplits(name, score);
    PrefixedPayload(name + "\"" + tail);
    ScorePartAccepted(score);
    NameThenTail(name, tail);
  }

  lemma StatusJsonSplits(name: string, score: Option<int>)
    ensures GradingStream.StatusJson(name, score)
         == GradingStream.StatusPrefix + (name + "\"" + (GradingStream.ScorePart(score) + "}"))
  {
    Regroup(GradingStream.StatusPrefix, name, "\"", GradingStream.ScorePart(score), "}");
  }

  lemma Regroup(a: string, b: string, c: string, d: string, e: string)
    ensures a + b + c + d + e == a + (b + c + (d + e))
  {
  }

  /* ---------- Crossing the wire ---------- */

  /** The record the client's `JSON.parse` yields for the serialised DTO. */
  function ToFrontend(d: SubmissionDto): FrontendTypes.Submission {
    FrontendTypes.Submission(d.id, d.challengeId, d.challengeTitle, d.status, d.score,
                             d.visibleTestsJson, d.hiddenTestsJson, d.checkstyleViolationsJson)
  }

  /**
   * What each sent event becomes at the client. The server's own `error`
   * event is dispatched to the `error` listener, which does nothing, exactly
   * like a transport error; a response ended by `completeWithError` reaches
   * the client as a transport error.
   */
  function Receive(e: GradingStream.ServerEvent): GradingTerminal.Event {
    match e
    case LogSent(d) => GradingTerminal.LogEvent(d)
    case StatusSent(d) => GradingTerminal.StatusEvent(ParseStatusPayload(d))
    case CompleteSent(dto) => GradingTerminal.CompleteEvent(GradingTerminal.Parsed(ToFrontend(dto)))
    case ErrorSent(_) => GradingTerminal.TransportError
    case Aborted(_) => GradingTerminal.TransportError
  }

  function ReceiveAll(es: seq<GradingStream.ServerEvent>): (r: seq<GradingTerminal.Event>)
    ensures |r| == |es|
    ensures forall i :: 0 <= i < |es| ==> r[i] == Receive(es[i])
  {
    if |es| == 0 then [] else [Receive(es[0])] + ReceiveAll(es[1..])
  }

  lemma ReceiveAllAppend(a: seq<GradingStream.ServerEvent>, b: seq<GradingStream.ServerEvent>)
    ensures ReceiveAll(a + b) == ReceiveAll(a) + ReceiveAll(b)
  {
  }

  /** The status names carry no quotes, so they survive the status payload. */
  lemma StatusNamesHaveNoQuote(s: Status)
    ensures '"' !in StatusName(s)
  {
    var n := StatusName(s);
    forall i | 0 <= i < |n|
      ensures n[i] != '"'
    {
      assert 'a' <= n[i] <= 'z' by {
        match s
        case Pending =>
        case Running =>
        case Passed =>
        case Failed =>
        case Error =>
      }
    }
  }

  /** A missing submission leaves the terminal exactly as it was, showing `connecting` if nothing came before. */
  lemma MissingSubmissionLeavesTerminal(mapper: GradingStream.Mapper, t: GradingTerminal.Terminal)
    ensures GradingTerminal.Run(t, ReceiveAll(GradingStream.TickOnce(mapper, 0, None).events)) == t
  {
    var es := ReceiveAll(GradingStream.TickOnce(mapper, 0, None).events);
    assert es == [GradingTerminal.TransportError];
    assert es[1..] == [];
  }

  /* ---------- Producer and consumer together ---------- */

  /** A log the stream may cut after: empty or ending in a newline. */
  predicate CutPoint(log: string) {
    |log| == 0 || log[|log| - 1] == '\n'
  }

  /** A terminal row whose DTO the mapper can write, so that the stream ends with `complete`. */
  predicate Completes(mapper: GradingStream.Mapper, row: Submission) {
    IsTerminal(row.status) && mapper == GradingStream.JavaTimeMapper
  }

  /**
   * What the terminal shows after a row has been streamed to it: the lines of
   * its log and its status; closed, with the record, exactly when the stream
   * ended with `complete`.
   */
  predicate Shows(mapper: GradingStream.Mapper, t: GradingTerminal.Terminal, row: Submission) {
    t.lines == GradingTerminal.LinesOf(Submissions.Log(row)) &&
    t.status == Some(StatusName(row.status)) &&
    t.closed == Completes(mapper, row) &&
    t.completed == (if Completes(mapper, row) then Some(ToFrontend(ToSubmissionDto(row))) else None)
  }

  lemma RunPair(t: GradingTerminal.Terminal, a: GradingTerminal.Event, b: GradingTerminal.Event)
    ensures GradingTerminal.Run(t, [a, b]) == GradingTerminal.Deliver(GradingTerminal.Deliver(t, a), b)
  {
    assert [a, b][1..] == [b];
    RunOne(GradingTerminal.Deliver(t, a), b);
  }

  lemma RunOne(t: GradingTerminal.Terminal, a: GradingTerminal.Event)
    ensures GradingTerminal.Run(t, [a]) == GradingTerminal.Deliver(t, a)
  {
    assert [a][1..] == [];
  }

  /** The status event of a tick and the event that may end the stream, delivered to an open terminal. */
  lemma StatusAndCompleteStep(mapper: GradingStream.Mapper, t: GradingTerminal.Terminal, row: Submission)
    requires !t.closed
    ensures GradingTerminal.Run(t, ReceiveAll(GradingStream.Closing(mapper, row))).lines == t.lines
    ensures GradingTerminal.Run(t, ReceiveAll(GradingStream.Closing(mapper, row))).status == Some(StatusName(row.status))
    ensures GradingTerminal.Run(t, ReceiveAll(GradingStream.Closing(mapper, row))).closed == Completes(mapper, row)
    ensures GradingTerminal.Run(t, ReceiveAll(GradingStream.Closing(mapper, row))).completed
         == (if Completes(mapper, row) then Some(ToFrontend(ToSubmissionDto(row))) else t.completed)
  {
    var status := GradingStream.StatusSent(GradingStream.StatusJson(StatusName(row.status), row.score));
    StatusNamesHaveNoQuote(row.status);
    StatusPayloadRoundTrip(StatusName(row.status), row.score);
    if IsTerminal(row.status) {
      var c := GradingStream.Finish(mapper, row);
      assert GradingStream.Closing(mapper, row) == [status, c];
      assert ReceiveAll([status, c]) == [Receive(status), Receive(c)];
      RunPair(t, Receive(status), Receive(c));
    } else {
      assert GradingStream.Closing(mapper, row) == [status];
      assert ReceiveAll([status]) == [Receive(status)];
      RunOne(t, Receive(status));
    }
  }

  lemma RunCons(t: GradingTerminal.Terminal, e: GradingTerminal.Event, es: seq<GradingTerminal.Event>)
    ensures GradingTerminal.Run(t, [e] + es) == GradingTerminal.Run(GradingTerminal.Deliver(t, e), es)
  {
    assert ([e] + es)[1..] == es;
  }

  /** A `log` event carrying text cut at a newline extends the shown lines to those of the whole text. */
  lemma LogDelivered(t: GradingTerminal.Terminal, sent: string, delta: string)
    requires !t.closed && t.lines == GradingTerminal.LinesOf(sent) && CutPoint(sent)
    ensures GradingTerminal.Deliver(t, GradingTerminal.LogEvent(delta)) == t.(lines := GradingTerminal.LinesOf(sent + delta))
  {
    GradingTerminal.LinesOfAppend(sent, delta);
  }

  /** A tick that finds new log text sends one `log` event carrying exactly that text. */
  lemma LogPartGrows(t: GradingTerminal.Terminal, sent: string, log: string)
    requires !t.closed && t.lines == GradingTerminal.LinesOf(sent)
    requires sent <= log && |log| > |sent| && CutPoint(sent)
    ensures GradingTerminal.Run(t, ReceiveAll(GradingStream.LogEvents(|sent|, log)))
         == t.(lines := GradingTerminal.LinesOf(log))
  {
    var delta := log[|sent|..];
    assert ReceiveAll(GradingStream.LogEvents(|sent|, log)) == [GradingTerminal.LogEvent(delta)];
    RunOne(t, GradingTerminal.LogEvent(delta));
    assert sent + delta == log;
    LogDelivered(t, sent, delta);
  }

  /** The `log` event of a tick brings the shown lines up to the whole log. */
  lemma LogPartStep(t: GradingTerminal.Terminal, sent: string, log: string)
    requires !t.closed && t.lines == GradingTerminal.LinesOf(sent)
    requires sent <= log && CutPoint(sent)
    ensures GradingTerminal.Run(t, ReceiveAll(GradingStream.LogEvents(|sent|, log)))
         == t.(lines := GradingTerminal.LinesOf(log))
  {
    if |log| > |sent| {
      LogPartGrows(t, sent, log);
    } else {
      assert sent == log;
    }
  }

  /** One tick over a row whose log extends, at a cut point, what the terminal already shows. */
  lemma TickStep(mapper: GradingStream.Mapper, t: GradingTerminal.Terminal, sent: string, row: Submission)
    requires !t.closed && t.completed.None? && t.lines == GradingTerminal.LinesOf(sent)
    requires sent <= Submissions.Log(row) && CutPoint(sent)
    ensures Shows(mapper, GradingTerminal.Run(t, ReceiveAll(GradingStream.TickOnce(mapper, |sent|, Some(row)).events)), row)
  {
    var log := Submissions.Log(row);
    var logEvents := GradingStream.LogEvents(|sent|, log);
    var closing := GradingStream.Closing(mapper, row);
    TickEvents(mapper, |sent|, row);
    RunReceived(t, logEvents, closing);
    LogPartStep(t, sent, log);
    var t1 := t.(lines := GradingTerminal.LinesOf(log));
    StatusAndCompleteStep(mapper, t1, row);
    ShowsAfterClosing(mapper, t1, row);
  }

  /** The events of a tick over a present row: the `log` part, then the closing part. */
  lemma TickEvents(mapper: GradingStream.Mapper, last: nat, row: Submission)
    ensures GradingStream.TickOnce(mapper, last, Some(row)).events
         == GradingStream.LogEvents(last, Submissions.Log(row)) + GradingStream.Closing(mapper, row)
  {
  }

  /** An open terminal with no record, already showing a row's lines, shows the row once its closing part is run. */
  lemma ShowsAfterClosing(mapper: GradingStream.Mapper, t: GradingTerminal.Terminal, row: Submission)
    requires !t.closed && t.completed.None? && t.lines == GradingTerminal.LinesOf(Submissions.Log(row))
    ensures Shows(mapper, GradingTerminal.Run(t, ReceiveAll(GradingStream.Closing(mapper, row))), row)
  {
    StatusAndCompleteStep(mapper, t, row);
  }

  /** The rows the stream reads: present, with a log that only grows and is cut only after newlines. */
  predicate Readable(rows: seq<Option<Submission>>) {
    GradingStream.GrowingRows(rows) &&
    forall i :: 0 <= i < |rows| - 1 ==> CutPoint(Submissions.Log(rows[i].value))
  }

  lemma ReadableTail(rows: seq<Option<Submission>>)
    requires |rows| > 1 && Readable(rows)
    ensures Readable(rows[1..]) && rows[1..][0] == rows[1]
    ensures CutPoint(Submissions.Log(rows[0].value))
    ensures Submissions.Log(rows[0].value) <= Submissions.Log(rows[1].value)
  {
    var rest := rows[1..];
    GradingStream.GrowingTail(rows);
    forall i | 0 <= i < |rest| - 1
      ensures CutPoint(Submissions.Log(rest[i].value))
    {
      assert rest[i] == rows[i + 1];
    }
  }

  /**
   * Where streaming can pick up: readable rows, an open terminal with no
   * record, showing the lines of the text sent so far, and that text a prefix of the first row's
   * log, cut after a newline.
   */
  predicate Ready(t: GradingTerminal.Terminal, sent: string, rows: seq<Option<Submission>>) {
    |rows| > 0 && Readable(rows) &&
    !t.closed && t.completed.None? && t.lines == GradingTerminal.LinesOf(sent) &&
    sent <= Submissions.Log(rows[0].value) && CutPoint(sent)
  }

  /** Receiving and running two batches of events in turn is running them together. */
  lemma RunReceived(t: GradingTerminal.Terminal, a: seq<GradingStream.ServerEvent>, b: seq<GradingStream.ServerEvent>)
    ensures GradingTerminal.Run(t, ReceiveAll(a + b))
         == GradingTerminal.Run(GradingTerminal.Run(t, ReceiveAll(a)), ReceiveAll(b))
  {
    ReceiveAllAppend(a, b);
    GradingTerminal.RunAppend(t, ReceiveAll(a), ReceiveAll(b));
  }

  /** A stream whose first tick ends it, or that has one row, is that tick alone. */
  lemma StreamEndsAtFirst(mapper: GradingStream.Mapper, last: nat, rows: seq<Option<Submission>>)
    requires |rows| > 0
    requires GradingStream.TickOnce(mapper, last, rows[0]).done || |rows| == 1
    ensures GradingStream.Stream(mapper, last, rows).events == GradingStream.TickOnce(mapper, last, rows[0]).events
    ensures GradingStream.Stream(mapper, last, rows).used == 1
  {
    GradingStream.StreamStep(mapper, last, rows);
  }

  lemma {:induction false} PipelineFrom(mapper: GradingStream.Mapper, t: GradingTerminal.Terminal, sent: string, rows: seq<Option<Submission>>)
    requires Ready(t, sent, rows)
    ensures Shows(mapper, GradingTerminal.Run(t, ReceiveAll(GradingStream.Stream(mapper, |sent|, rows).events)),
                  rows[GradingStream.Stream(mapper, |sent|, rows).used - 1].value)
    decreases |rows|, 1
  {
    if GradingStream.TickOnce(mapper, |sent|, rows[0]).done || |rows| == 1 {
      PipelineStops(mapper, t, sent, rows);
    } else {
      PipelineContinues(mapper, t, sent, rows);
    }
  }

  /** A tick that ends the stream, or reads its only row, leaves the terminal showing that row. */
  lemma PipelineStops(mapper: GradingStream.Mapper, t: GradingTerminal.Terminal, sent: string, rows: seq<Option<Submission>>)
    requires Ready(t, sent, rows)
    requires GradingStream.TickOnce(mapper, |sent|, rows[0]).done || |rows| == 1
    ensures Shows(mapper, GradingTerminal.Run(t, ReceiveAll(GradingStream.Stream(mapper, |sent|, rows).events)),
                  rows[GradingStream.Stream(mapper, |sent|, rows).used - 1].value)
  {
    var row := rows[0].value;
    assert rows[0] == Some(row);
    StreamEndsAtFirst(mapper, |sent|, rows);
    TickStep(mapper, t, sent, row);
  }

  /** A tick that does not end the stream hands over to the rest of the rows, from the whole log. */
  lemma {:induction false} PipelineContinues(mapper: GradingStream.Mapper, t: GradingTerminal.Terminal, sent: string, rows: seq<Option<Submission>>)
    requires Ready(t, sent, rows) && |rows| > 1
    requires !GradingStream.TickOnce(mapper, |sent|, rows[0]).done
    ensures Shows(mapper, GradingTerminal.Run(t, ReceiveAll(GradingStream.Stream(mapper, |sent|, rows).events)),
                  rows[GradingStream.Stream(mapper, |sent|, rows).used - 1].value)
    decreases |rows|, 0
  {
    var row := rows[0].value;
    assert rows[0] == Some(row);
    var tick := GradingStream.TickOnce(mapper, |sent|, rows[0]);
    var log := Submissions.Log(row);
    var t1 := GradingTerminal.Run(t, ReceiveAll(tick.events));
    TickStep(mapper, t, sent, row);
    GradingStream.TickSendsDelta(mapper, sent, row);
    ReadableTail(rows);
    PipelineFrom(mapper, t1, log, rows[1..]);
    GradingStream.StreamStep(mapper, |sent|, rows);
    RunReceived(t, tick.events, GradingStream.Stream(mapper, |log|, rows[1..]).events);
  }

  /**
   * End to end: streaming rows whose log only grows and is cut only after
   * newlines, to a fresh terminal, leaves it showing the lines of the last row
   * read and that row's status; the stream is closed, with the completed
   * record, exactly when that row is terminal and the mapper writes its DTO.
   */
  lemma PipelineShowsLastRow(mapper: GradingStream.Mapper, rows: seq<Option<Submission>>)
    requires |rows| > 0 && Readable(rows)
    ensures Shows(mapper, GradingTerminal.Run(GradingTerminal.Initial, ReceiveAll(GradingStream.Stream(mapper, 0, rows).events)),
                  rows[GradingStream.Stream(mapper, 0, rows).used - 1].value)
  {
    InitialReady(rows);
    PipelineFrom(mapper, GradingTerminal.Initial, "", rows);
    assert |""| == 0;
  }

  /** A fresh terminal is ready for the first row, nothing having been sent yet. */
  lemma InitialReady(rows: seq<Option<Submission>>)
    requires |rows| > 0 && Readable(rows)
    ensures Ready(GradingTerminal.Initial, "", rows)
  {
    GradingTerminal.LinesOfAppend("", "");
    assert "" + "" == "";
    assert "" <= Submissions.Log(rows[0].value);
  }

  /** The rows as the poller reads them. */
  function Present(saved: seq<Submission>): (r: seq<Option<Submission>>)
    ensures |r| == |saved|
    ensures forall i :: 0 <= i < |saved| ==> r[i] == Some(saved[i])
  {
    if |saved| == 0 then [] else [Some(saved[0])] + Present(saved[1..])
  }

  /**
   * The rows `gradeAsync` persists, read in order by the stream after the
   * pending row, satisfy the conditions of the end-to-end property: the log
   * only grows and every row but the last ends in a newline.
   */
  lemma GradingRowsAreReadable(sub: Submission, outcome: Submissions.Outcome)
    requires sub.graderLog.None?
    ensures Readable([Some(sub)] + Present(Submissions.GradeAsync(sub, outcome)))
  {
    var saved := Submissions.GradeAsync(sub, outcome);
    Submissions.GradingLogOnlyGrows(sub, outcome);
    RowsAfterPending(sub, saved);
  }

  /** Behind a row with no log, rows whose log only grows and is cut after newlines stay readable. */
  lemma RowsAfterPending(sub: Submission, saved: seq<Submission>)
    requires sub.graderLog.None?
    requires forall i, j :: 0 <= i <= j < |saved| ==> Submissions.Log(saved[i]) <= Submissions.Log(saved[j])
    requires forall i :: 0 <= i < |saved| - 1 ==> EndsWith(Submissions.Log(saved[i]), "\n")
    ensures Readable([Some(sub)] + Present(saved))
  {
    PresentReadable(saved);
    assert Submissions.Log(sub) == "";
    ReadableCons(sub, Present(saved));
  }

  /** Persisted rows whose log only grows and is cut after newlines are readable. */
  lemma PresentReadable(saved: seq<Submission>)
    requires forall i, j :: 0 <= i <= j < |saved| ==> Submissions.Log(saved[i]) <= Submissions.Log(saved[j])
    requires forall i :: 0 <= i < |saved| - 1 ==> EndsWith(Submissions.Log(saved[i]), "\n")
    ensures Readable(Present(saved))
  {
    forall i | 0 <= i < |saved| - 1
      ensures CutPoint(Submissions.Log(saved[i]))
    {
      NewlineEndIsCut(Submissions.Log(saved[i]));
    }
  }

  lemma NewlineEndIsCut(log: string)
    requires EndsWith(log, "\n")
    ensures CutPoint(log)
  {
    assert log[|log| - 1..][0] == log[|log| - 1];
  }

  /** A row with an empty log can go in front of readable rows. */
  lemma ReadableCons(sub: Submission, rest: seq<Option<Submission>>)
    requires Submissions.Log(sub) == "" && Readable(rest)
    ensures Readable([Some(sub)] + rest)
  {
    var rows := [Some(sub)] + rest;
    forall i, j | 0 <= i <= j < |rows|
      ensures Submissions.Log(rows[i].value) <= Submissions.Log(rows[j].value)
    {
      if i > 0 {
        assert rows[i] == rest[i - 1] && rows[j] == rest[j - 1];
      }
    }
    forall i | 0 <= i < |rows| - 1
      ensures CutPoint(Submissions.Log(rows[i].value))
    {
      if i > 0 {
        assert rows[i] == rest[i - 1];
      }
    }
  }

  /**
   * Grading seen live: a poller that reads the pending row and then each row
   * `gradeAsync` persists leaves a fresh terminal showing the final row: the
   * lines of its whole log and its terminal status. With a mapper that writes
   * `java.time` values the stream is closed and the completed record shown;
   * with the handler's bare mapper it is neither.
   */
  lemma GradingSeenLive(mapper: GradingStream.Mapper, sub: Submission, outcome: Submissions.Outcome)
    requires sub.graderLog.None? && sub.status == Pending
    ensures Shows(mapper, GradingTerminal.Run(GradingTerminal.Initial,
                                      ReceiveAll(GradingStream.Stream(mapper, 0, [Some(sub)] + Present(Submissions.GradeAsync(sub, outcome))).events)),
                  Submissions.GradeAsync(sub, outcome)[|Submissions.GradeAsync(sub, outcome)| - 1])
  {
    Submissions.GradingLogOnlyGrows(sub, outcome);
    LiveRowsShowLast(mapper, sub, Submissions.GradeAsync(sub, outcome));
  }

  /**
   * The rows a poller reads while grading runs: a pending row with no log,
   * then running rows and a final one, whose logs only grow and are cut
   * after newlines.
   */
  predicate LiveRows(sub: Submission, saved: seq<Submission>) {
    sub.graderLog.None? && sub.status == Pending && |saved| > 0 &&
    (forall i :: 0 <= i < |saved| - 1 ==> saved[i].status == Running) &&
    (forall i, j :: 0 <= i <= j < |saved| ==> Submissions.Log(saved[i]) <= Submissions.Log(saved[j])) &&
    (forall i :: 0 <= i < |saved| - 1 ==> EndsWith(Submissions.Log(saved[i]), "\n"))
  }

  /** No row before the final one ends the stream, so it reads every row. */
  lemma LiveRowsAllRead(mapper: GradingStream.Mapper, sub: Submission, saved: seq<Submission>)
    requires LiveRows(sub, saved)
    ensures GradingStream.Stream(mapper, 0, [Some(sub)] + Present(saved)).used == |saved| + 1
  {
    LiveRowsBeforeFinal(sub, saved);
    GradingStream.ReadsUpToTerminal(mapper, 0, [Some(sub)] + Present(saved));
  }

  /** Every live row is present, and none before the final one is terminal. */
  lemma LiveRowsBeforeFinal(sub: Submission, saved: seq<Submission>)
    requires LiveRows(sub, saved)
    ensures forall i :: 0 <= i < |saved| + 1 ==> ([Some(sub)] + Present(saved))[i].Some?
    ensures forall i :: 0 <= i < |saved| ==> !IsTerminal(([Some(sub)] + Present(saved))[i].value.status)
  {
    var rows := [Some(sub)] + Present(saved);
    forall i | 0 <= i < |saved| + 1
      ensures rows[i].Some?
      ensures i < |saved| ==> !IsTerminal(rows[i].value.status)
    {
      if i > 0 {
        assert rows[i] == Some(saved[i - 1]);
      }
    }
  }

  /** Streaming the live rows leaves a fresh terminal showing the final row. */
  lemma LiveRowsShowLast(mapper: GradingStream.Mapper, sub: Submission, saved: seq<Submission>)
    requires LiveRows(sub, saved)
    ensures Shows(mapper, GradingTerminal.Run(GradingTerminal.Initial,
                                      ReceiveAll(GradingStream.Stream(mapper, 0, [Some(sub)] + Present(saved)).events)),
                  saved[|saved| - 1])
  {
    var rows := [Some(sub)] + Present(saved);
    RowsAfterPending(sub, saved);
    PipelineShowsLastRow(mapper, rows);
    LiveRowsAllRead(mapper, sub, saved);
    assert rows[|rows| - 1] == Some(saved[|saved| - 1]);
  }

  /* ---------- The stream as written ---------- */

  /** One connection of the handler's stream to a row that no longer changes, delivered to `t`. */
  function Connect(t: GradingTerminal.Terminal, row: Submission): GradingTerminal.Terminal {
    GradingTerminal.Run(t, ReceiveAll(GradingStream.Stream(GradingStream.HandlerMapper, 0, [Some(row)]).events))
  }

  /**
   * A connection to a terminal row, delivered to an open terminal with no
   * record: the whole log is appended, the status shown, and the terminal
   * stays open with no record, because the handler's mapper cannot write the DTO.
   */
  lemma ConnectToGradedRow(t: GradingTerminal.Terminal, row: Submission)
    requires IsTerminal(row.status) && !t.closed && t.completed.None?
    ensures Connect(t, row).lines == t.lines + GradingTerminal.LinesOf(Submissions.Log(row))
    ensures Connect(t, row).status == Some(StatusName(row.status))
    ensures !Connect(t, row).closed && Connect(t, row).completed.None?
  {
    var mapper := GradingStream.HandlerMapper;
    var log := Submissions.Log(row);
    var logEvents := GradingStream.LogEvents(0, log);
    var closing := GradingStream.Closing(mapper, row);
    StreamEndsAtFirst(mapper, 0, [Some(row)]);
    assert GradingStream.TickOnce(mapper, 0, Some(row)).events == logEvents + closing;
    RunReceived(t, logEvents, closing);
    WholeLogAppended(t, log);
    StatusAndCompleteStep(mapper, t.(lines := t.lines + GradingTerminal.LinesOf(log)), row);
  }

  /** A `log` event from nothing sent appends the lines of the whole log to an open terminal. */
  lemma WholeLogAppended(t: GradingTerminal.Terminal, log: string)
    requires !t.closed
    ensures GradingTerminal.Run(t, ReceiveAll(GradingStream.LogEvents(0, log)))
         == t.(lines := t.lines + GradingTerminal.LinesOf(log))
  {
    if |log| > 0 {
      assert log[0..] == log;
      assert ReceiveAll(GradingStream.LogEvents(0, log)) == [GradingTerminal.LogEvent(log)];
      RunOne(t, GradingTerminal.LogEvent(log));
    } else {
      NoLinesInEmptyLog();
      assert t.lines + [] == t.lines;
    }
  }

  lemma NoLinesInEmptyLog()
    ensures GradingTerminal.LinesOf("") == []
  {
    assert SplitLines("") == [""];
    assert GradingTerminal.KeepNonBlank([""]) == [];
  }

  /**
   * The stream as written, opened once grading is over: the terminal shows the
   * log and the status but stays open with no record. Its error listener does
   * not close the EventSource, so the browser reconnects, and the new stream,
   * with nothing counted as sent, appends the whole log a second time.
   */
  lemma ReconnectRepeatsLog(row: Submission)
    requires IsTerminal(row.status)
    ensures Connect(GradingTerminal.Initial, row).lines == GradingTerminal.LinesOf(Submissions.Log(row))
    ensures !Connect(GradingTerminal.Initial, row).closed && Connect(GradingTerminal.Initial, row).completed.None?
    ensures Connect(Connect(GradingTerminal.Initial, row), row).lines
         == GradingTerminal.LinesOf(Submissions.Log(row)) + GradingTerminal.LinesOf(Submissions.Log(row))
    ensures !Connect(Connect(GradingTerminal.Initial, row), row).closed
  {
    ConnectToGradedRow(GradingTerminal.Initial, row);
    ConnectToGradedRow(Connect(GradingTerminal.Initial, row), row);
    assert GradingTerminal.Initial.lines == [];
    assert [] + GradingTerminal.LinesOf(Submissions.Log(row)) == GradingTerminal.LinesOf(Submissions.Log(row));
  }

  /* ---------- A failing final save ---------- */

  /** The rows a poller reads when the final save of grading fails: the pending row, then the stored ones. */
  function AfterFailedSave(sub: Submission, outcome: Submissions.Outcome, message: Option<string>)
    : seq<Option<Submission>>
  {
    [Some(sub)] + Present(Submissions.GradeRun(sub, outcome, Submissions.SaveFailed(message)).stored)
  }

  /**
   * When the final save fails the stream never ends: it reads every stored
   * row and sends neither `complete` nor an error, until the emitter times out.
   */
  lemma FinalSaveFailureNeverEnds(mapper: GradingStream.Mapper, sub: Submission, outcome: Submissions.Outcome,
                                  message: Option<string>)
    requires sub.status == Pending
    ensures GradingStream.Stream(mapper, 0, AfterFailedSave(sub, outcome, message)).used
         == |AfterFailedSave(sub, outcome, message)|
    ensures forall i :: 0 <= i < |GradingStream.Stream(mapper, 0, AfterFailedSave(sub, outcome, message)).events| ==>
              !GradingStream.EndsStream(GradingStream.Stream(mapper, 0, AfterFailedSave(sub, outcome, message)).events[i])
  {
    StoredNotTerminal(sub, outcome, message);
    GradingStream.EndsOnlyOnTerminal(mapper, 0, AfterFailedSave(sub, outcome, message));
  }

  /** After a failing final save the terminal stays open, with no record, on a `pending` or `running` status. */
  lemma FinalSaveFailureLeavesOpen(mapper: GradingStream.Mapper, sub: Submission, outcome: Submissions.Outcome,
                                   message: Option<string>)
    requires sub.graderLog.None? && sub.status == Pending
    ensures !GradingTerminal.Run(GradingTerminal.Initial,
              ReceiveAll(GradingStream.Stream(mapper, 0, AfterFailedSave(sub, outcome, message)).events)).closed
    ensures GradingTerminal.Run(GradingTerminal.Initial,
              ReceiveAll(GradingStream.Stream(mapper, 0, AfterFailedSave(sub, outcome, message)).events)).completed.None?
    ensures GradingTerminal.Run(GradingTerminal.Initial,
              ReceiveAll(GradingStream.Stream(mapper, 0, AfterFailedSave(sub, outcome, message)).events)).status
            in {Some(StatusName(Pending)), Some(StatusName(Running))}
  {
    var rows := AfterFailedSave(sub, outcome, message);
    FinalSaveFailureNeverEnds(mapper, sub, outcome, message);
    StoredNotTerminal(sub, outcome, message);
    StoredReadable(sub, outcome, message);
    PipelineShowsLastRow(mapper, rows);
    assert rows[|rows| - 1].value.status == Pending || rows[|rows| - 1].value.status == Running;
  }

  /** Every row read after a failing final save is present and still `pending` or `running`. */
  lemma StoredNotTerminal(sub: Submission, outcome: Submissions.Outcome, message: Option<string>)
    requires sub.status == Pending
    ensures forall i :: 0 <= i < |AfterFailedSave(sub, outcome, message)| ==>
              AfterFailedSave(sub, outcome, message)[i].Some? &&
              AfterFailedSave(sub, outcome, message)[i].value.status in {Pending, Running} &&
              !IsTerminal(AfterFailedSave(sub, outcome, message)[i].value.status)
  {
    var stored := Submissions.GradeRun(sub, outcome, Submissions.SaveFailed(message)).stored;
    var rows := AfterFailedSave(sub, outcome, message);
    forall i | 0 <= i < |rows|
      ensures rows[i].Some? && rows[i].value.status in {Pending, Running} && !IsTerminal(rows[i].value.status)
    {
      if i > 0 {
        assert rows[i] == Some(stored[i - 1]);
      }
    }
  }

  /** The rows left by a failing final save are readable behind the pending row. */
  lemma StoredReadable(sub: Submission, outcome: Submissions.Outcome, message: Option<string>)
    requires sub.graderLog.None?
    ensures Readable(AfterFailedSave(sub, outcome, message))
  {
    var saved := Submissions.GradeAsync(sub, outcome);
    var stored := Submissions.GradeRun(sub, outcome, Submissions.SaveFailed(message)).stored;
    Submissions.GradingLogOnlyGrows(sub, outcome);
    assert forall i :: 0 <= i < |stored| ==> stored[i] == saved[i];
    RowsAfterPending(sub, stored);
  }
}
