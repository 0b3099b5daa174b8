/**
 * The grading service's HTTP entry point
 * (grader/src/main/java/com/javachallenge/grader/api/GraderController.java):
 * unpack the submitted zip under a fresh work directory, refusing entries that
 * would land outside it, drop the hidden tests into the test sources, run Maven
 * in the sandbox, read the reports, split the tests by name and score them.
 * The sandbox run, the file system and JSON (de)serialisation are inputs.
 */
module GraderApi {
  import opened Wrappers
  import opened Text
  import opened Xml
  import opened GraderModel
  import Scoring
  import Surefire
  import Checkstyle

  // ---------------------------------------------------------------------------
  // Paths, as java.nio's Unix paths treat them

  /** A path: absolute or not, and its names (never empty, never containing '/'). */
  datatype Path = Path(absolute: bool, names: seq<string>)

  /** The non-empty pieces of `s` between '/' characters, `cur` being the piece read so far. */
  function NamesFrom(s: string, cur: string): (r: seq<string>)
    ensures forall k :: 0 <= k < |r| ==> r[k] != ""
    decreases |s|
  {
    if |s| == 0 then (if cur == "" then [] else [cur])
    else if s[0] == '/' then (if cur == "" then [] else [cur]) + NamesFrom(s[1..], "")
    else NamesFrom(s[1..], cur + [s[0]])
  }

  /** `Path.of(s)`: redundant and trailing slashes do not make names. */
  function ParsePath(s: string): (p: Path)
    ensures p.absolute <==> |s| > 0 && s[0] == '/'
    ensures forall k :: 0 <= k < |p.names| ==> p.names[k] != ""
  {
    Path(|s| > 0 && s[0] == '/', NamesFrom(s, ""))
  }

  /** `base.resolve(other)`: an absolute `other` replaces the base. */
  function Resolve(base: Path, other: Path): (r: Path)
    ensures other.absolute ==> r == other
    ensures !other.absolute ==> r.absolute == base.absolute && r.names == base.names + other.names
  {
    if other.absolute then other else Path(base.absolute, base.names + other.names)
  }

  /** Names that `normalize` leaves alone: no "", "." or "..". */
  predicate Clean(names: seq<string>) {
    forall k :: 0 <= k < |names| ==> names[k] != "" && names[k] != "." && names[k] != ".."
  }

  /**
   * `normalize`, with `acc` the names kept so far: "." is dropped, ".." removes
   * the name before it, and a ".." with nothing to remove is dropped at the
   * root of an absolute path and kept in a relative one.
   */
  function NormalizeFrom(absolute: bool, acc: seq<string>, names: seq<string>): (r: seq<string>)
    decreases |names|
  {
    if |names| == 0 then acc
    else if names[0] == "." then NormalizeFrom(absolute, acc, names[1..])
    else if names[0] == ".." then
      if |acc| > 0 && acc[|acc| - 1] != ".." then NormalizeFrom(absolute, acc[..|acc| - 1], names[1..])
      else if absolute then NormalizeFrom(absolute, acc, names[1..])
      else NormalizeFrom(absolute, acc + [".."], names[1..])
    else NormalizeFrom(absolute, acc + [names[0]], names[1..])
  }

  function Normalize(p: Path): Path {
    Path(p.absolute, NormalizeFrom(p.absolute, [], p.names))
  }

  /** An absolute path normalises to clean names: nothing left can climb or stay put. */
  lemma {:induction false} AbsoluteNormalizesClean(acc: seq<string>, names: seq<string>)
    requires Clean(acc)
    requires forall k :: 0 <= k < |names| ==> names[k] != ""
    ensures Clean(NormalizeFrom(true, acc, names))
    decreases |names|
  {
    if |names| > 0 {
      if names[0] == "." || names[0] == ".." {
        if names[0] == ".." && |acc| > 0 && acc[|acc| - 1] != ".." {
          AbsoluteNormalizesClean(acc[..|acc| - 1], names[1..]);
        } else {
          AbsoluteNormalizesClean(acc, names[1..]);
        }
      } else {
        AbsoluteNormalizesClean(acc + [names[0]], names[1..]);
      }
    }
  }

  /** Clean names pass through `normalize` unchanged. */
  lemma {:induction false} NormalizeKeepsClean(absolute: bool, acc: seq<string>, names: seq<string>)
    requires Clean(names)
    ensures NormalizeFrom(absolute, acc, names) == acc + names
    decreases |names|
  {
    if |names| > 0 {
      NormalizeKeepsClean(absolute, acc + [names[0]], names[1..]);
      assert acc + [names[0]] + names[1..] == acc + names;
    }
  }

  /** `target.startsWith(dest)`: same kind of path, and dest's names lead target's. */
  predicate PathStartsWith(target: Path, dest: Path) {
    target.absolute == dest.absolute && dest.names <= target.names
  }

  /** Where a zip entry is written: `dest.resolve(name).normalize()`. */
  function EntryTarget(dest: Path, entryName: string): Path {
    Normalize(Resolve(dest, ParsePath(entryName)))
  }

  /** The zip-slip guard: an entry is extracted only if its target lies under `dest`. */
  predicate Accepted(dest: Path, entryName: string) {
    PathStartsWith(EntryTarget(dest, entryName), dest)
  }

  /**
   * An accepted entry lands inside the work directory or on the directory
   * itself: its target is the directory's names followed by clean names only,
   * possibly none.
   */
  lemma AcceptedStaysInside(dest: Path, entryName: string)
    requires dest.absolute && Clean(dest.names)
    requires Accepted(dest, entryName)
    ensures var t := EntryTarget(dest, entryName);
            t.absolute && t.names == dest.names + t.names[|dest.names|..] && Clean(t.names[|dest.names|..])
  {
    var r := Resolve(dest, ParsePath(entryName));
    assert r.absolute;
    AbsoluteNormalizesClean([], r.names);
    var t := EntryTarget(dest, entryName);
    assert t.names == dest.names + t.names[|dest.names|..];
  }

  /** A relative entry name made only of ordinary names is accepted and lands where it says. */
  lemma PlainEntryAccepted(dest: Path, entryName: string)
    requires dest.absolute && Clean(dest.names)
    requires |entryName| > 0 && entryName[0] != '/'
    requires Clean(ParsePath(entryName).names)
    ensures Accepted(dest, entryName)
    ensures EntryTarget(dest, entryName) == Path(true, dest.names + ParsePath(entryName).names)
  {
    var n := ParsePath(entryName).names;
    NormalizeKeepsClean(true, [], dest.names + n);
  }

  /** An entry "." names the work directory itself, and the guard accepts it. */
  lemma DotEntryIsWorkDirectory()
    ensures Accepted(Path(true, ["tmp", "g"]), ".")
    ensures EntryTarget(Path(true, ["tmp", "g"]), ".") == Path(true, ["tmp", "g"])
  {
  }

  /** An entry climbing out of the work directory is refused. */
  lemma ClimbingEntryRefused()
    ensures !Accepted(Path(true, ["tmp", "g"]), "../x")
  {
    var dest := Path(true, ["tmp", "g"]);
    assert NamesFrom("", "x") == ["x"];
    assert NamesFrom("x", "") == ["x"] by { assert "x"[1..] == "" && "" + ['x'] == "x"; }
    assert NamesFrom("/x", "..") == [".."] + ["x"] by { assert "/x"[1..] == "x"; }
    assert NamesFrom("./x", ".") == [".."] + ["x"] by { assert "./x"[1..] == "/x" && "." + ['.'] == ".."; }
    assert NamesFrom("../x", "") == ["..", "x"] by { assert "../x"[1..] == "./x" && "" + ['.'] == "."; }
    var names := ["tmp", "g", "..", "x"];
    assert Resolve(dest, ParsePath("../x")).names == names;
    assert NormalizeFrom(true, ["tmp", "g"], names[2..]) == ["tmp", "x"] by {
      assert names[2..][1..] == ["x"];
      assert NormalizeFrom(true, ["tmp"], ["x"]) == ["tmp", "x"];
    }
    assert NormalizeFrom(true, [], names) == ["tmp", "x"] by {
      assert names[1..] == ["g", "..", "x"];
      assert names[1..][1..] == names[2..];
    }
  }

  /** An absolute entry pointing elsewhere is refused. */
  lemma AbsoluteEntryRefused()
    ensures !Accepted(Path(true, ["tmp", "g"]), "/x")
  {
    assert NamesFrom("", "x") == ["x"];
    assert NamesFrom("x", "") == ["x"] by { assert "x"[1..] == "" && "" + ['x'] == "x"; }
    assert NamesFrom("/x", "") == ["x"] by { assert "/x"[1..] == "x"; }
    assert NormalizeFrom(true, [], ["x"]) == ["x"];
  }

  /** The message `extractZip` throws with on the first refused entry. */
  const TraversalMessage := "Zip path traversal!"

  /** `extractZip`'s outcome: the first refused entry stops it with the traversal message. */
  function Extract(dest: Path, entryNames: seq<string>): (r: Option<string>)
    ensures r.None? <==> forall k :: 0 <= k < |entryNames| ==> Accepted(dest, entryNames[k])
    ensures r.Some? ==> r.value == TraversalMessage
  {
    if |entryNames| == 0 then None
    else if !Accepted(dest, entryNames[0]) then Some(TraversalMessage)
    else Extract(dest, entryNames[1..])
  }

  // ---------------------------------------------------------------------------
  // Hidden tests

  /** One item of the hidden-tests array: a class to write, or one the grading service cannot read. */
  datatype HiddenItem = HiddenTest(className: string, code: string) | BadItem(message: Option<string>)

  /** The hidden-tests parameter once parsed by Jackson, or its parse failure. */
  datatype HiddenDoc = Items(items: seq<HiddenItem>) | NotJson(message: Option<string>)

  /** An attempt at something that may throw: its value, or the exception's message. */
  datatype Attempt<T> = Done(value: T) | Threw(message: Option<string>)

  datatype FileWrite = FileWrite(path: string, content: string)

  const TestDir := "src/test/java/com/challenge/"

  function WriteAll(items: seq<HiddenItem>): (r: Attempt<seq<FileWrite>>)
    ensures r.Done? <==> forall k :: 0 <= k < |items| ==> items[k].HiddenTest?
    ensures r.Done? ==> |r.value| == |items|
    ensures r.Done? ==> forall k :: 0 <= k < |items| ==>
      r.value[k] == FileWrite(TestDir + items[k].className + ".java", items[k].code)
  {
    if |items| == 0 then Done([])
    else match items[0]
      case BadItem(m) => Threw(m)
      case HiddenTest(c, code) =>
        var rest := WriteAll(items[1..]);
        if rest.Threw? then rest else Done([FileWrite(TestDir + c + ".java", code)] + rest.value)
  }

  /**
   * `injectHiddenTests`: nothing for the literal "[]", otherwise one file per
   * item under the test directory, or the first failure.
   */
  function InjectHiddenTests(hiddenTests: string, doc: HiddenDoc): (r: Attempt<seq<FileWrite>>)
    ensures hiddenTests == "[]" ==> r == Done([])
    ensures hiddenTests != "[]" && doc.NotJson? ==> r == Threw(doc.message)
    ensures hiddenTests != "[]" && doc.Items? ==> r == WriteAll(doc.items)
  {
    if hiddenTests == "[]" then Done([])
    else match doc
      case NotJson(m) => Threw(m)
      case Items(items) => WriteAll(items)
  }

  // ---------------------------------------------------------------------------
  // Grading

  /** A test counts as hidden when its id mentions "Hidden". */
  predicate IsHidden(t: TestResult) {
    Includes(t.name, "Hidden")
  }

  predicate IsVisible(t: TestResult) {
    !IsHidden(t)
  }

  /** The elements of `s` that satisfy `p`, in order. */
  function Keep<T>(s: seq<T>, p: T -> bool): (r: seq<T>)
    ensures |r| <= |s|
  {
    if |s| == 0 then []
    else (if p(s[0]) then [s[0]] else []) + Keep(s[1..], p)
  }

  /** What is kept satisfies `p` and comes from `s`; everything in `s` satisfying `p` is kept. */
  lemma {:induction false} KeepMembers<T>(s: seq<T>, p: T -> bool)
    ensures forall k :: 0 <= k < |Keep(s, p)| ==> p(Keep(s, p)[k]) && Keep(s, p)[k] in s
    ensures forall x :: x in s && p(x) ==> x in Keep(s, p)
  {
    if |s| > 0 {
      KeepMembers(s[1..], p);
      var head := if p(s[0]) then [s[0]] else [];
      var r := Keep(s, p);
      assert r == head + Keep(s[1..], p);
      forall k | 0 <= k < |r|
        ensures p(r[k]) && r[k] in s
      {
        if k >= |head| {
          assert r[k] == Keep(s[1..], p)[k - |head|];
        }
      }
      forall x | x in s && p(x)
        ensures x in r
      {
        if x != s[0] {
          assert x in s[1..];
        }
      }
    }
  }

  /** Filtering by a predicate and by its negation splits `s` without loss or duplication. */
  lemma {:induction false} KeepPartition<T>(s: seq<T>, p: T -> bool, q: T -> bool)
    requires forall x :: q(x) == !p(x)
    ensures multiset(Keep(s, p)) + multiset(Keep(s, q)) == multiset(s)
  {
    if |s| > 0 {
      var x, rest := s[0], s[1..];
      KeepPartition(rest, p, q);
      assert multiset(s) == multiset{x} + multiset(rest) by {
        assert s == [x] + rest;
      }
      if p(x) {
        assert multiset(Keep(s, p)) == multiset{x} + multiset(Keep(rest, p)) by {
          assert Keep(s, p) == [x] + Keep(rest, p);
        }
        assert Keep(s, q) == Keep(rest, q);
      } else {
        assert Keep(s, p) == Keep(rest, p);
        assert multiset(Keep(s, q)) == multiset{x} + multiset(Keep(rest, q)) by {
          assert Keep(s, q) == [x] + Keep(rest, q);
        }
      }
    }
  }

  /** Filtering keeps order: the kept elements of `a + b` are those of `a`, then those of `b`. */
  lemma {:induction false} KeepAppend<T>(a: seq<T>, b: seq<T>, p: T -> bool)
    ensures Keep(a + b, p) == Keep(a, p) + Keep(b, p)
  {
    if |a| > 0 {
      assert (a + b)[0] == a[0];
      assert (a + b)[1..] == a[1..] + b;
      KeepAppend(a[1..], b, p);
    } else {
      assert a + b == b;
    }
  }

  function Visible(tests: seq<TestResult>): (r: seq<TestResult>)
    ensures forall k :: 0 <= k < |r| ==> !IsHidden(r[k]) && r[k] in tests
    ensures forall t :: t in tests && !IsHidden(t) ==> t in r
    ensures |tests| == 1 ==> r == (if IsHidden(tests[0]) then [] else tests)
  {
    KeepMembers(tests, IsVisible);
    Keep(tests, IsVisible)
  }

  function Hidden(tests: seq<TestResult>): (r: seq<TestResult>)
    ensures forall k :: 0 <= k < |r| ==> IsHidden(r[k]) && r[k] in tests
    ensures forall t :: t in tests && IsHidden(t) ==> t in r
    ensures |tests| == 1 ==> r == (if IsHidden(tests[0]) then tests else [])
  {
    KeepMembers(tests, IsHidden);
    Keep(tests, IsHidden)
  }

  /**
   * The visible results keep report order: together with the one-test case
   * of `Visible`, this fixes the list.
   */
  lemma VisibleAppend(a: seq<TestResult>, b: seq<TestResult>)
    ensures Visible(a + b) == Visible(a) + Visible(b)
  {
    KeepAppend(a, b, IsVisible);
  }

  /** The hidden results keep report order as well. */
  lemma HiddenAppend(a: seq<TestResult>, b: seq<TestResult>)
    ensures Hidden(a + b) == Hidden(a) + Hidden(b)
  {
    KeepAppend(a, b, IsHidden);
  }

  /** The split loses and duplicates nothing: the two halves together are the tests. */
  lemma SplitIsPartition(tests: seq<TestResult>)
    ensures multiset(Visible(tests)) + multiset(Hidden(tests)) == multiset(tests)
  {
    KeepPartition(tests, IsVisible, IsHidden);
  }

  /** What the sandbox reports back: Maven's exit code and console output. */
  datatype Execution = Execution(exitCode: int, output: string)

  /** Everything the grading run depends on that lies outside this controller. */
  datatype GradeInputs = GradeInputs(
    workDir: Path,
    entryNames: seq<string>,
    hiddenTests: string,
    hiddenDoc: HiddenDoc,
    run: Attempt<Execution>,
    reports: Option<seq<Surefire.ReportFile>>,
    checkstyleResult: Option<Parsed>,
    hiddenConfigured: bool)

  /** The reply for any exception along the way. */
  function ErrorResult(message: Option<string>): GraderResult {
    GraderResult(false, 0, [], [], [], "Grader error: " + JavaStr(message))
  }

  /** The reply for a run that got through: tests split by name, scored, pass mark 60 and a clean exit. */
  function Scored(tests: seq<TestResult>, violations: seq<CheckstyleViolation>, execution: Execution,
                  hiddenConfigured: bool): (r: GraderResult)
    ensures r.visibleTests == Visible(tests) && r.hiddenTests == Hidden(tests) && r.violations == violations
    ensures r.score == Scoring.Calculate(Visible(tests), Hidden(tests), violations, hiddenConfigured)
    ensures r.passed <==> r.score >= 60 && execution.exitCode == 0
    ensures r.log == execution.output
  {
    var visible := Visible(tests);
    var hidden := Hidden(tests);
    var score := Scoring.Calculate(visible, hidden, violations, hiddenConfigured);
    GraderResult(score >= 60 && execution.exitCode == 0, score, visible, hidden, violations, execution.output)
  }

  /** `grade`: extraction, injection and the sandbox run in order; the first failure decides the reply. */
  function Grade(g: GradeInputs): (r: GraderResult)
    ensures 0 <= r.score <= 100
    ensures r.passed ==> r.score >= 60
    ensures Extract(g.workDir, g.entryNames).Some? ==> r == ErrorResult(Some(TraversalMessage))
  {
    var extracted := Extract(g.workDir, g.entryNames);
    if extracted.Some? then ErrorResult(extracted)
    else
      var injected := InjectHiddenTests(g.hiddenTests, g.hiddenDoc);
      if injected.Threw? then ErrorResult(injected.message)
      else match g.run
        case Threw(m) => ErrorResult(m)
        case Done(execution) =>
          Scored(Surefire.Parse(g.reports), Checkstyle.Parse(g.checkstyleResult), execution, g.hiddenConfigured)
  }

  /** Every failure is reported the same way: not passed, score 0, empty lists, the message in the log. */
  lemma FailuresScoreZero(g: GradeInputs)
    requires Extract(g.workDir, g.entryNames).None?
    requires InjectHiddenTests(g.hiddenTests, g.hiddenDoc).Threw? || g.run.Threw?
    ensures !Grade(g).passed && Grade(g).score == 0
    ensures Grade(g).visibleTests == [] && Grade(g).hiddenTests == [] && Grade(g).violations == []
    ensures StartsWith(Grade(g).log, "Grader error: ")
  {
  }

  /**
   * A run that gets through passes exactly when its score reaches 60 and Maven
   * exited cleanly; a failing build cannot pass whatever its score.
   */
  lemma PassRule(g: GradeInputs)
    requires Extract(g.workDir, g.entryNames).None?
    requires InjectHiddenTests(g.hiddenTests, g.hiddenDoc).Done? && g.run.Done?
    ensures Grade(g).passed <==> Grade(g).score >= 60 && g.run.value.exitCode == 0
    ensures Grade(g).log == g.run.value.output
    ensures multiset(Grade(g).visibleTests) + multiset(Grade(g).hiddenTests)
            == multiset(Surefire.Parse(g.reports))
    ensures Grade(g).violations == Checkstyle.Parse(g.checkstyleResult)
    ensures Grade(g).score == Scoring.Calculate(Visible(Surefire.Parse(g.reports)), Hidden(Surefire.Parse(g.reports)),
                                                Checkstyle.Parse(g.checkstyleResult), g.hiddenConfigured)
  {
    SplitIsPartition(Surefire.Parse(g.reports));
  }
}
