/**
 * The client side of live grading (frontend/src/components/challenges/GradingTerminal.tsx):
 * the ordered line classifier, the reducer formed by the `log`, `status`,
 * `complete` and `error` listeners of the event stream, and the
 * scroll-pinning rule of the log view. Events are the named events of a
 * Server-Sent Events stream (section 9.2 of the WHATWG HTML Living Standard),
 * taken after decoding; timestamps of lines are left out.
 */
module GradingTerminal {
  import opened Wrappers
  import opened Text
  import FrontendTypes

  datatype LineType = Phase | Test | Checkstyle | Log | Error | Success

  datatype LogLine = LogLine(kind: LineType, text: string)

  /** `classifyLine`: end-trim the raw line, then the first matching rule decides. */
  function ClassifyLine(raw: string): LogLine {
    var text := TrimEnd(raw);
    if StartsWith(text, "[PHASE]") then LogLine(Phase, ReplaceFirst(text, "[PHASE] ", ""))
    else if StartsWith(text, "[ERROR]") then LogLine(Error, ReplaceFirst(text, "[ERROR] ", ""))
    else ClassifyMentions(text)
  }

  /** The rules after the two prefix rules: each looks for a marker anywhere and keeps the text. */
  function ClassifyMentions(text: string): (l: LogLine)
    ensures l.text == text && l.kind != Phase
  {
    if Includes(text, "Tests run:") && Includes(text, "Failures:") then LogLine(Test, text)
    else if Includes(text, "BUILD SUCCESS") then LogLine(Success, text)
    else if Includes(text, "BUILD FAILURE") then LogLine(Error, text)
    else if Includes(text, "Checkstyle violations") then LogLine(Checkstyle, text)
    else if Includes(text, "[INFO] Running") then LogLine(Test, text)
    else if Includes(text, "[ERROR]") then LogLine(Error, text)
    else LogLine(Log, text)
  }

  /* ---------- The classification rules as a table ---------- */

  datatype Condition = StartsWithMarker(marker: string) | Mentions(marker: string) | MentionsBoth(first: string, second: string)

  /** A rule: when the condition holds, the line gets `kind`, and `strip` (if any) is removed once from its text. */
  datatype Rule = Rule(condition: Condition, kind: LineType, strip: Option<string>)

  const Rules: seq<Rule> := [
    Rule(StartsWithMarker("[PHASE]"), Phase, Some("[PHASE] ")),
    Rule(StartsWithMarker("[ERROR]"), Error, Some("[ERROR] ")),
    Rule(MentionsBoth("Tests run:", "Failures:"), Test, None),
    Rule(Mentions("BUILD SUCCESS"), Success, None),
    Rule(Mentions("BUILD FAILURE"), Error, None),
    Rule(Mentions("Checkstyle violations"), Checkstyle, None),
    Rule(Mentions("[INFO] Running"), Test, None),
    Rule(Mentions("[ERROR]"), Error, None)
  ]

  predicate Holds(c: Condition, text: string) {
    match c
    case StartsWithMarker(m) => StartsWith(text, m)
    case Mentions(m) => Includes(text, m)
    case MentionsBoth(a, b) => Includes(text, a) && Includes(text, b)
  }

  function Apply(r: Rule, text: string): LogLine {
    LogLine(r.kind, if r.strip.Some? then ReplaceFirst(text, r.strip.value, "") else text)
  }

  /** No rule before index `k` applies to `text`. */
  predicate NoneBefore(rules: seq<Rule>, text: string, k: nat)
    requires k <= |rules|
  {
    forall j :: 0 <= j < k ==> !Holds(rules[j].condition, text)
  }

  /** First-match evaluation of a rule table from index `k` on; a line no rule matches is plain `log`. */
  function FirstMatchFrom(rules: seq<Rule>, text: string, k: nat): (l: LogLine)
    requires k <= |rules|
    ensures NoneBefore(rules, text, |rules|) ==> l == LogLine(Log, text)
    ensures forall i :: k <= i < |rules| && Holds(rules[i].condition, text) && NoneBefore(rules, text, i) ==>
                        l == Apply(rules[i], text)
    decreases |rules| - k
  {
    if k == |rules| then LogLine(Log, text)
    else if Holds(rules[k].condition, text) then Apply(rules[k], text)
    else FirstMatchFrom(rules, text, k + 1)
  }

  function FirstMatch(rules: seq<Rule>, text: string): LogLine {
    FirstMatchFrom(rules, text, 0)
  }

  /** `classifyLine` is first-match evaluation of the rule table on the end-trimmed line. */
  lemma ClassifyFollowsRuleTable(raw: string)
    ensures ClassifyLine(raw) == FirstMatch(Rules, TrimEnd(raw))
  {
    var text := TrimEnd(raw);
    var rs := Rules;
    var h := seq(8, k requires 0 <= k < 8 => Holds(rs[k].condition, text));
    assert h[0] == StartsWith(text, "[PHASE]");
    assert h[1] == StartsWith(text, "[ERROR]");
    assert h[2] == (Includes(text, "Tests run:") && Includes(text, "Failures:"));
    assert h[3] == Includes(text, "BUILD SUCCESS");
    assert h[4] == Includes(text, "BUILD FAILURE");
    assert h[5] == Includes(text, "Checkstyle violations");
    assert h[6] == Includes(text, "[INFO] Running");
    assert h[7] == Includes(text, "[ERROR]");
    FirstMatchOfEight(rs, text, h);
  }

  /** One step of first-match evaluation: the rule at `k` decides if it holds, else evaluation moves on. */
  lemma FirstMatchStep(rules: seq<Rule>, text: string, k: nat)
    requires k < |rules|
    ensures FirstMatchFrom(rules, text, k)
         == if Holds(rules[k].condition, text) then Apply(rules[k], text) else FirstMatchFrom(rules, text, k + 1)
  {
  }

  /** First-match evaluation of an eight-rule table, spelled out as a chain of tests. */
  lemma FirstMatchOfEight(rs: seq<Rule>, text: string, h: seq<bool>)
    requires |rs| == 8 && |h| == 8
    requires forall k :: 0 <= k < 8 ==> h[k] == Holds(rs[k].condition, text)
    ensures FirstMatch(rs, text)
         == if h[0] then Apply(rs[0], text) else if h[1] then Apply(rs[1], text)
            else if h[2] then Apply(rs[2], text) else if h[3] then Apply(rs[3], text)
            else if h[4] then Apply(rs[4], text) else if h[5] then Apply(rs[5], text)
            else if h[6] then Apply(rs[6], text) else if h[7] then Apply(rs[7], text)
            else LogLine(Log, text)
  {
    FirstMatchStep(rs, text, 0);
    FirstMatchStep(rs, text, 1);
    FirstMatchStep(rs, text, 2);
    FirstMatchStep(rs, text, 3);
    FirstMatchStep(rs, text, 4);
    FirstMatchStep(rs, text, 5);
    FirstMatchStep(rs, text, 6);
    FirstMatchStep(rs, text, 7);
  }

  /** A test summary line is `test` even when it also reports a build failure or a non-leading `[ERROR]`. */
  lemma TestSummaryTakesPrecedence(raw: string)
    requires var text := TrimEnd(raw);
             !StartsWith(text, "[PHASE]") && !StartsWith(text, "[ERROR]") &&
             Includes(text, "Tests run:") && Includes(text, "Failures:")
    ensures ClassifyLine(raw) == LogLine(Test, TrimEnd(raw))
  {
  }

  /** A line gets the `phase` kind exactly when its end-trimmed text starts with `[PHASE]`. */
  lemma PhaseIff(raw: string)
    ensures ClassifyLine(raw).kind == Phase <==> StartsWith(TrimEnd(raw), "[PHASE]")
  {
  }

  /** Only the two prefix rules rewrite the text; every other rule keeps the end-trimmed line. */
  lemma ClassifiedText(raw: string)
    ensures var text := TrimEnd(raw);
            if StartsWith(text, "[PHASE] ") || (!StartsWith(text, "[PHASE]") && StartsWith(text, "[ERROR] "))
            then ClassifyLine(raw).text == text[8..]
            else if !StartsWith(text, "[PHASE]") && !StartsWith(text, "[ERROR]")
            then ClassifyLine(raw).text == text
            else true
  {
    var text := TrimEnd(raw);
    if StartsWith(text, "[PHASE] ") {
      ReplaceLeadingOccurrence(text, "[PHASE] ");
    } else if !StartsWith(text, "[PHASE]") && StartsWith(text, "[ERROR] ") {
      ReplaceLeadingOccurrence(text, "[ERROR] ");
    }
  }

  /** Without a leading marker the line keeps its end-trimmed text and is not `phase`. */
  lemma UnmarkedKeepsText(raw: string)
    requires !StartsWith(TrimEnd(raw), "[PHASE]") && !StartsWith(TrimEnd(raw), "[ERROR]")
    ensures ClassifyLine(raw).kind != Phase
    ensures ClassifyLine(raw).text == TrimEnd(raw)
  {
  }

  /**
   * Only the end is trimmed: a line with leading whitespace never matches the
   * prefix rules, so it is never `phase` and keeps its full text, markers included.
   */
  lemma LeadingWhitespaceDefeatsPrefixRules(raw: string)
    requires |raw| > 0 && IsJsWhitespace(raw[0])
    ensures ClassifyLine(raw).kind != Phase
    ensures ClassifyLine(raw).text == TrimEnd(raw)
  {
    var text := TrimEnd(raw);
    if |text| > 0 {
      assert text[0] == raw[0];
      assert text[0] != '[';
    }
    assert !StartsWith(text, "[PHASE]") && !StartsWith(text, "[ERROR]");
    UnmarkedKeepsText(raw);
  }

  /* ---------- The `log` listener ---------- */

  /** The filter's test on one piece: kept when its trimmed text is not empty. */
  function KeepIfNonBlank(part: string): (r: seq<string>)
    ensures |r| <= 1
    ensures forall i :: 0 <= i < |r| ==> r[i] == part && !IsBlank(part)
  {
    TrimEmptyIffBlank(part);
    if |Trim(part)| > 0 then [part] else []
  }

  /** `filter(l => l.trim().length > 0)`. */
  function KeepNonBlank(parts: seq<string>): (r: seq<string>)
    ensures forall i :: 0 <= i < |r| ==> !IsBlank(r[i])
    ensures |r| <= |parts|
  {
    if |parts| == 0 then []
    else KeepIfNonBlank(parts[0]) + KeepNonBlank(parts[1..])
  }

  function ClassifyAll(parts: seq<string>): (r: seq<LogLine>)
    ensures |r| == |parts|
    ensures forall i :: 0 <= i < |parts| ==> r[i] == ClassifyLine(parts[i])
  {
    seq(|parts|, i requires 0 <= i < |parts| => ClassifyLine(parts[i]))
  }

  /** The lines one `log` payload adds: split on "\n", drop blank pieces, classify the rest in order. */
  function LinesOf(data: string): seq<LogLine> {
    ClassifyAll(KeepNonBlank(SplitLines(data)))
  }

  lemma {:induction false} KeepNonBlankAppend(a: seq<string>, b: seq<string>)
    ensures KeepNonBlank(a + b) == KeepNonBlank(a) + KeepNonBlank(b)
    decreases |a|
  {
    if |a| > 0 {
      assert (a + b)[0] == a[0] && (a + b)[1..] == a[1..] + b;
      KeepNonBlankAppend(a[1..], b);
      assert KeepNonBlank(a + b) == KeepIfNonBlank(a[0]) + KeepNonBlank(a[1..] + b);
    } else {
      assert a + b == b;
    }
  }

  lemma {:induction false} ClassifyAllAppend(a: seq<string>, b: seq<string>)
    ensures ClassifyAll(a + b) == ClassifyAll(a) + ClassifyAll(b)
  {
    var l, r := ClassifyAll(a + b), ClassifyAll(a) + ClassifyAll(b);
    assert |l| == |r|;
    forall i | 0 <= i < |l|
      ensures l[i] == r[i]
    {
      if i < |a| {
        assert (a + b)[i] == a[i];
      } else {
        assert (a + b)[i] == b[i - |a|];
      }
    }
  }

  /** A piece that is empty contributes nothing. */
  lemma KeepNonBlankEmptyPiece()
    ensures KeepNonBlank([""]) == []
  {
    TrimEmptyIffBlank("");
  }

  /**
   * Log text cut after a newline: the lines of the two payloads together are
   * the lines of the whole text, so the cut loses, splits or duplicates no line.
   */
  lemma LinesOfAppend(a: string, b: string)
    requires |a| == 0 || a[|a| - 1] == '\n'
    ensures LinesOf(a + b) == LinesOf(a) + LinesOf(b)
  {
    KeepNonBlankEmptyPiece();
    if |a| == 0 {
      assert a + b == b;
      assert SplitLines(a) == [""];
    } else {
      var pa := SplitLines(a);
      var init := pa[..|pa| - 1];
      SplitAfterNewline(a, b);
      assert pa == init + [""];
      KeepNonBlankAppend(init, [""]);
      assert KeepNonBlank(pa) == KeepNonBlank(init);
      KeepNonBlankAppend(init, SplitLines(b));
      ClassifyAllAppend(KeepNonBlank(init), KeepNonBlank(SplitLines(b)));
    }
  }

  /* ---------- The event reducer ---------- */

  /** Outcome of `JSON.parse` on an event payload. */
  datatype Decoded<T> = Malformed | Parsed(value: T)

  /**
   * A delivered event. A `status` payload decodes to its `status` member
   * (`None` when the member is missing); a `complete` payload decodes to a
   * submission record.
   */
  datatype Event =
    | LogEvent(data: string)
    | StatusEvent(payload: Decoded<Option<string>>)
    | CompleteEvent(record: Decoded<FrontendTypes.Submission>)
    | TransportError

  /**
   * The component's state: the rendered lines, the status shown (`None` is
   * JavaScript `undefined`), whether the stream has been closed, and the record
   * handed to `onComplete`, if any.
   */
  datatype Terminal = Terminal(
    lines: seq<LogLine>,
    status: Option<string>,
    closed: bool,
    completed: Option<FrontendTypes.Submission>)

  /** A new terminal shows no lines and the `connecting` status. */
  const Initial: Terminal := Terminal([], Some("connecting"), false, None)

  /** What the listeners do with one event. */
  function Handle(t: Terminal, e: Event): (r: Terminal)
    ensures t.lines <= r.lines
    ensures e.LogEvent? ==> r.lines[|t.lines|..] == LinesOf(e.data)
    ensures !e.LogEvent? ==> r.lines == t.lines
    ensures r.status != t.status ==> e.StatusEvent? && e.payload.Parsed? && r.status == e.payload.value
    ensures e.StatusEvent? && e.payload.Parsed? ==> r.status == e.payload.value
    ensures r.closed <==> t.closed || e.CompleteEvent?
    ensures r.completed != t.completed ==> e.CompleteEvent? && e.record.Parsed? && r.completed == Some(e.record.value)
    ensures e.CompleteEvent? && e.record.Parsed? ==> r.completed == Some(e.record.value)
  {
    match e
    case LogEvent(data) => t.(lines := t.lines + LinesOf(data))
    case StatusEvent(p) => if p.Parsed? then t.(status := p.value) else t
    case CompleteEvent(rec) =>
      if rec.Parsed? then t.(completed := Some(rec.value), closed := true) else t.(closed := true)
    case TransportError => t
  }

  /** The event source dispatches nothing once `source.close()` has run. */
  function Deliver(t: Terminal, e: Event): Terminal {
    if t.closed then t else Handle(t, e)
  }

  function Run(t: Terminal, events: seq<Event>): Terminal
    decreases |events|
  {
    if |events| == 0 then t else Run(Deliver(t, events[0]), events[1..])
  }

  /** Lines are only ever appended: earlier lines survive every sequence of events. */
  lemma {:induction false} RunOnlyAppends(t: Terminal, events: seq<Event>)
    ensures t.lines <= Run(t, events).lines
    decreases |events|
  {
    if |events| > 0 {
      RunOnlyAppends(Deliver(t, events[0]), events[1..]);
    }
  }

  /** Once a `complete` event has been handled, no later event changes anything, the status included. */
  lemma {:induction false} ClosedTerminalIsFrozen(t: Terminal, events: seq<Event>)
    requires t.closed
    ensures Run(t, events) == t
    decreases |events|
  {
    if |events| > 0 {
      ClosedTerminalIsFrozen(t, events[1..]);
    }
  }

  lemma RunAppend(t: Terminal, a: seq<Event>, b: seq<Event>)
    ensures Run(t, a + b) == Run(Run(t, a), b)
    decreases |a|
  {
    if |a| > 0 {
      assert (a + b)[1..] == a[1..] + b;
      RunAppend(Deliver(t, a[0]), a[1..], b);
    } else {
      assert a + b == b;
    }
  }

  /** A transport error or a malformed `status` payload changes no state. */
  lemma IgnoredEvents(t: Terminal)
    ensures Deliver(t, TransportError) == t
    ensures Deliver(t, StatusEvent(Malformed)) == t
  {
  }

  /**
   * A `complete` event always closes the stream, and the record reaches
   * `onComplete` only when the payload parses.
   */
  lemma CompleteCloses(t: Terminal, rec: Decoded<FrontendTypes.Submission>)
    requires !t.closed
    ensures Deliver(t, CompleteEvent(rec)).closed
    ensures Deliver(t, CompleteEvent(rec)).completed == if rec.Parsed? then Some(rec.value) else t.completed
  {
  }

  /**
   * The `status` listener has no terminal guard: while the stream is open a
   * later status overwrites a terminal one.
   */
  lemma StatusCanLeaveTerminal()
    ensures Run(Initial, [StatusEvent(Parsed(Some("passed"))), StatusEvent(Parsed(Some("running")))]).status
            == Some("running")
  {
    var e1 := StatusEvent(Parsed(Some("passed")));
    var e2 := StatusEvent(Parsed(Some("running")));
    var t1 := Deliver(Initial, e1);
    assert t1.status == Some("passed") && !t1.closed;
    assert [e1, e2][1..] == [e2];
    assert Run(t1, [e2]) == Deliver(t1, e2);
  }

  /* ---------- Scroll pinning ---------- */

  /** The scroll container's geometry in pixels. */
  datatype ScrollBox = ScrollBox(scrollHeight: int, scrollTop: int, clientHeight: int)

  const ScrollThreshold: int := 40

  function DistanceFromBottom(b: ScrollBox): int {
    b.scrollHeight - b.scrollTop - b.clientHeight
  }

  /** The largest scroll offset the browser allows. */
  function MaxScrollTop(b: ScrollBox): int {
    if b.scrollHeight > b.clientHeight then b.scrollHeight - b.clientHeight else 0
  }

  /** A geometry the browser can produce: non-negative sizes and an offset inside the scroll range. */
  predicate ValidBox(b: ScrollBox) {
    b.clientHeight >= 0 && b.scrollHeight >= 0 && 0 <= b.scrollTop <= MaxScrollTop(b)
  }

  /** Assigning `scrollTop` clamps the value into the scroll range. */
  function SetScrollTop(b: ScrollBox, top: int): (r: ScrollBox)
    ensures ValidBox(b) ==> ValidBox(r)
  {
    b.(scrollTop := if top < 0 then 0 else if top > MaxScrollTop(b) then MaxScrollTop(b) else top)
  }

  /** `handleScroll`: the user counts as scrolled up when 40 pixels or more lie below the view. */
  function HandleScroll(el: Option<ScrollBox>, scrolledUp: bool): (r: bool)
    ensures el.None? ==> r == scrolledUp
    ensures el.Some? ==> (r <==> DistanceFromBottom(el.value) >= ScrollThreshold)
  {
    match el
    case None => scrolledUp
    case Some(b) => !(DistanceFromBottom(b) < ScrollThreshold)
  }

  /** The effect run after `lines` changes: scroll to the bottom unless the user scrolled up. */
  function AutoScroll(el: Option<ScrollBox>, scrolledUp: bool): (r: Option<ScrollBox>)
    ensures r.None? <==> el.None?
    ensures el.Some? && scrolledUp ==> r == el
    ensures el.Some? && !scrolledUp && el.value.clientHeight >= 0 ==> r.value.scrollTop == MaxScrollTop(el.value)
  {
    if el.Some? && !scrolledUp then Some(SetScrollTop(el.value, el.value.scrollHeight)) else el
  }

  /** The log view: the container geometry and the `userScrolledUp` flag. */
  datatype View = View(box: ScrollBox, scrolledUp: bool)

  /** New lines grow the content by `grow` pixels, or the user drags the view to `top`. */
  datatype ViewAction = Grow(grow: nat) | UserScroll(top: int)

  /**
   * One action. After growth the lines effect runs; a programmatic scroll that
   * moves the view fires a scroll event, which runs `handleScroll`. A user
   * scroll is clamped by the browser and then runs `handleScroll`.
   */
  function ViewStep(v: View, a: ViewAction): (r: View)
    ensures ValidBox(v.box) ==> ValidBox(r.box)
  {
    match a
    case Grow(g) =>
      var grown := v.box.(scrollHeight := v.box.scrollHeight + g);
      var scrolled := AutoScroll(Some(grown), v.scrolledUp).value;
      var up := if scrolled.scrollTop != grown.scrollTop then HandleScroll(Some(scrolled), v.scrolledUp) else v.scrolledUp;
      View(scrolled, up)
    case UserScroll(top) =>
      var moved := SetScrollTop(v.box, top);
      View(moved, HandleScroll(Some(moved), v.scrolledUp))
  }

  function ViewRun(v: View, actions: seq<ViewAction>): View
    decreases |actions|
  {
    if |actions| == 0 then v else ViewRun(ViewStep(v, actions[0]), actions[1..])
  }

  predicate AtBottom(b: ScrollBox) {
    b.scrollTop == MaxScrollTop(b)
  }

  /** As long as the user has not scrolled away, every batch of new lines leaves the view pinned to the bottom. */
  lemma {:induction false} PinnedWhileNotScrolledUp(v: View, actions: seq<ViewAction>)
    requires ValidBox(v.box) && !v.scrolledUp
    requires forall i :: 0 <= i < |actions| ==> actions[i].Grow?
    ensures !ViewRun(v, actions).scrolledUp
    ensures |actions| > 0 ==> AtBottom(ViewRun(v, actions).box)
    decreases |actions|
  {
    if |actions| > 0 {
      var v' := ViewStep(v, actions[0]);
      assert AtBottom(v'.box) && !v'.scrolledUp;
      PinnedWhileNotScrolledUp(v', actions[1..]);
      if |actions| == 1 {
        assert ViewRun(v, actions) == ViewRun(v', []);
      }
    }
  }

  /** After the user scrolls away, new lines never move the view. */
  lemma {:induction false} DetachedWhileScrolledUp(v: View, actions: seq<ViewAction>)
    requires v.scrolledUp
    requires forall i :: 0 <= i < |actions| ==> actions[i].Grow?
    ensures ViewRun(v, actions).scrolledUp
    ensures ViewRun(v, actions).box.scrollTop == v.box.scrollTop
    decreases |actions|
  {
    if |actions| > 0 {
      DetachedWhileScrolledUp(ViewStep(v, actions[0]), actions[1..]);
    }
  }

  /** Scrolling to within the threshold of the bottom resumes pinning at the next batch of lines. */
  lemma ScrollingBackResumesPinning(v: View, top: int, g: nat)
    requires ValidBox(v.box)
    requires DistanceFromBottom(SetScrollTop(v.box, top)) < ScrollThreshold
    ensures var v' := ViewRun(v, [UserScroll(top), Grow(g)]);
            !v'.scrolledUp && AtBottom(v'.box)
  {
    var v1 := ViewStep(v, UserScroll(top));
    assert !v1.scrolledUp && ValidBox(v1.box);
    var v2 := ViewStep(v1, Grow(g));
    assert !v2.scrolledUp && AtBottom(v2.box);
    var acts := [UserScroll(top), Grow(g)];
    assert acts[1..] == [Grow(g)];
    assert ViewRun(v, acts) == ViewRun(v1, [Grow(g)]);
    assert [Grow(g)][1..] == [];
    assert ViewRun(v1, [Grow(g)]) == ViewRun(v2, []) == v2;
  }
}
