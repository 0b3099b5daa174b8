/**
 * Reading the Maven Surefire reports into test results
 * (grader/src/main/java/com/javachallenge/grader/parser/SurefireParser.java).
 * The reports directory is handed over as its listing: `None` when it does not
 * exist, otherwise its files in listing order with their parsed documents.
 */
module Surefire {
  import opened Wrappers
  import opened Text
  import opened Xml
  import opened GraderModel

  datatype ReportFile = ReportFile(name: string, content: Parsed)

  /** A Surefire test id: class name, '#', method name. */
  function TestName(classname: string, testMethod: string): string {
    classname + "#" + testMethod
  }

  /**
   * One `<testcase>`: failed with the stripped text of its first `<failure>`,
   * else of its first `<error>`, else passed.
   */
  function TestCaseResult(tc: Node): (r: TestResult)
    requires tc.Element?
    ensures r.name == TestName(GetAttribute(tc.attributes, "classname"), GetAttribute(tc.attributes, "name"))
    ensures r.passed <==> CountTag(tc.children, "failure") == 0 && CountTag(tc.children, "error") == 0
    ensures r.passed <==> r.errorMessage.None?
    ensures |ElementsByTag(tc.children, "failure")| > 0 ==>
              r.errorMessage == Some(Strip(TextContent(ElementsByTag(tc.children, "failure")[0])))
    ensures |ElementsByTag(tc.children, "failure")| == 0 && |ElementsByTag(tc.children, "error")| > 0 ==>
              r.errorMessage == Some(Strip(TextContent(ElementsByTag(tc.children, "error")[0])))
  {
    var name := TestName(GetAttribute(tc.attributes, "classname"), GetAttribute(tc.attributes, "name"));
    var failures := ElementsByTag(tc.children, "failure");
    var errors := ElementsByTag(tc.children, "error");
    ElementsByTagCount(tc.children, "failure");
    ElementsByTagCount(tc.children, "error");
    if |failures| > 0 then TestResult(name, false, Some(Strip(TextContent(failures[0]))))
    else if |errors| > 0 then TestResult(name, false, Some(Strip(TextContent(errors[0]))))
    else TestResult(name, true, None)
  }

  function TestCases(cases: seq<Node>): (r: seq<TestResult>)
    requires forall k :: 0 <= k < |cases| ==> cases[k].Element?
    ensures |r| == |cases|
    ensures forall k :: 0 <= k < |cases| ==> r[k] == TestCaseResult(cases[k])
  {
    seq(|cases|, k requires 0 <= k < |cases| => TestCaseResult(cases[k]))
  }

  /** The results one report file contributes. */
  function FileResults(f: ReportFile): (r: seq<TestResult>)
    ensures f.content.Unreadable? ==> r == [TestResult(f.name, false, f.content.message)]
    ensures f.content.Document? ==> |r| == CountTag([f.content.root], "testcase")
    ensures f.content.Document? ==>
              |r| == |ElementsByTag([f.content.root], "testcase")| &&
              forall k :: 0 <= k < |r| ==> r[k] == TestCaseResult(ElementsByTag([f.content.root], "testcase")[k])
  {
    match f.content
    case Unreadable(m) => [TestResult(f.name, false, m)]
    case Document(root) =>
      ElementsByTagCount([root], "testcase");
      TestCases(ElementsByTag([root], "testcase"))
  }

  predicate IsReport(f: ReportFile) {
    EndsWith(f.name, ".xml")
  }

  /** What each file of the listing contributes: nothing unless its name ends in ".xml". */
  function Contribution(f: ReportFile): nat {
    if !IsReport(f) then 0
    else if f.content.Document? then CountTag([f.content.root], "testcase")
    else 1
  }

  function ResultsOf(files: seq<ReportFile>): (r: seq<TestResult>)
  {
    if |files| == 0 then []
    else (if IsReport(files[0]) then FileResults(files[0]) else []) + ResultsOf(files[1..])
  }

  function TotalContribution(files: seq<ReportFile>): nat {
    if |files| == 0 then 0 else Contribution(files[0]) + TotalContribution(files[1..])
  }

  /**
   * The results of each report of the listing sit in one block, after the
   * results of the files listed before it.
   */
  predicate ListsReportsInTurn(r: seq<TestResult>, files: seq<ReportFile>) {
    forall i :: 0 <= i < |files| && IsReport(files[i]) ==>
      BlockAt(r, TotalContribution(files[..i]), FileResults(files[i]))
  }

  /** `parse`: no results for a missing directory, else the reports' results file by file. */
  function Parse(dir: Option<seq<ReportFile>>): (r: seq<TestResult>)
    ensures dir.None? ==> r == []
    ensures dir.Some? ==> ListsReportsInTurn(r, dir.value)
  {
    if dir.None? then []
    else
      ReportsInTurn(dir.value);
      ResultsOf(dir.value)
  }

  lemma {:induction false} ResultsOfCount(files: seq<ReportFile>)
    ensures |ResultsOf(files)| == TotalContribution(files)
  {
    if |files| > 0 {
      ResultsOfCount(files[1..]);
    }
  }

  /**
   * One result per `<testcase>` of every readable report and one per
   * unreadable report; files not ending in ".xml" contribute nothing.
   */
  lemma ParseCount(files: seq<ReportFile>)
    ensures |Parse(Some(files))| == TotalContribution(files)
  {
    ResultsOfCount(files);
  }

  lemma ResultsOfAround(files: seq<ReportFile>, i: nat)
    requires i < |files| && IsReport(files[i])
    ensures ResultsOf(files) == ResultsOf(files[..i]) + FileResults(files[i]) + ResultsOf(files[i + 1..])
  {
    var f, before, after := files[i], files[..i], files[i + 1..];
    assert files[i..] == [f] + after;
    assert files == before + files[i..];
    assert files == before + [f] + after;
    ResultsOfAppend(before + [f], after);
    ResultsOfAppend(before, [f]);
    assert ResultsOf([f]) == FileResults(f) by {
      assert [f][1..] == [];
    }
  }

  lemma BlockInPlace(files: seq<ReportFile>, i: nat)
    requires i < |files| && IsReport(files[i])
    ensures BlockAt(ResultsOf(files), TotalContribution(files[..i]), FileResults(files[i]))
  {
    ResultsOfAround(files, i);
    ResultsOfCount(files[..i]);
    BlockAtMiddle(ResultsOf(files[..i]), FileResults(files[i]), ResultsOf(files[i + 1..]));
  }

  lemma ReportsInTurn(files: seq<ReportFile>)
    ensures ListsReportsInTurn(ResultsOf(files), files)
  {
    forall i | 0 <= i < |files| && IsReport(files[i])
      ensures BlockAt(ResultsOf(files), TotalContribution(files[..i]), FileResults(files[i]))
    {
      BlockInPlace(files, i);
    }
  }

  lemma {:induction false} ResultsOfAppend(a: seq<ReportFile>, b: seq<ReportFile>)
    ensures ResultsOf(a + b) == ResultsOf(a) + ResultsOf(b)
  {
    if |a| > 0 {
      assert (a + b)[0] == a[0];
      assert (a + b)[1..] == a[1..] + b;
      ResultsOfAppend(a[1..], b);
    } else {
      assert a + b == b;
    }
  }

  /** An unreadable report shows up as one failing test named after the file. */
  lemma UnreadableReportFails(before: seq<ReportFile>, f: ReportFile, after: seq<ReportFile>)
    requires IsReport(f) && f.content.Unreadable?
    ensures var r := Parse(Some(before + [f] + after));
            var k := |ResultsOf(before)|;
            k < |r| && r[k] == TestResult(f.name, false, f.content.message)
  {
    ResultsOfAppend(before + [f], after);
    ResultsOfAppend(before, [f]);
    assert ResultsOf([f]) == [TestResult(f.name, false, f.content.message)] by {
      assert [f][1..] == [];
    }
  }

  /** A test of a class whose name mentions "Hidden" carries "Hidden" in its test id. */
  lemma HiddenClassNamesTheTest(classname: string, testMethod: string)
    requires Includes(classname, "Hidden")
    ensures Includes(TestName(classname, testMethod), "Hidden")
  {
    IncludesIff(classname, "Hidden");
    var j: nat :| OccursAt(classname, "Hidden", j);
    var t := TestName(classname, testMethod);
    assert t[j..j + 6] == classname[j..j + 6];
    assert OccursAt(t, "Hidden", j);
    IncludesIff(t, "Hidden");
  }
}
