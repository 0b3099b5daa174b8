/**
 * Reading Checkstyle's XML result into violations
 * (grader/src/main/java/com/javachallenge/grader/parser/CheckstyleParser.java).
 * The result file is `None` when it does not exist.
 */
module Checkstyle {
  import opened Wrappers
  import opened Text
  import opened Xml
  import opened GraderModel
  import Scoring

  /** `Integer.parseInt` of the line attribute, 0 when it does not parse. */
  function LineNumber(s: string): (r: int)
    ensures IntMin <= r <= IntMax
    ensures ParseJavaInt(s).None? ==> r == 0
    ensures ParseJavaInt(s).Some? ==> r == ParseJavaInt(s).value
  {
    ParseJavaInt(s).GetOr(0)
  }

  /** One `<error>` of a `<file>`, as a violation of that file. */
  function Violation(fileName: string, err: Node): (r: CheckstyleViolation)
    requires err.Element?
    ensures r.file == fileName && r.message.Some?
    ensures r.severity == GetAttribute(err.attributes, "severity")
    ensures r.rule == GetAttribute(err.attributes, "source")
    ensures r.message == Some(GetAttribute(err.attributes, "message"))
    ensures r.line == LineNumber(GetAttribute(err.attributes, "line"))
  {
    CheckstyleViolation(
      fileName,
      LineNumber(GetAttribute(err.attributes, "line")),
      GetAttribute(err.attributes, "severity"),
      Some(GetAttribute(err.attributes, "message")),
      GetAttribute(err.attributes, "source"))
  }

  function Violations(fileName: string, errs: seq<Node>): (r: seq<CheckstyleViolation>)
    requires forall k :: 0 <= k < |errs| ==> errs[k].Element?
    ensures |r| == |errs|
    ensures forall k :: 0 <= k < |errs| ==> r[k] == Violation(fileName, errs[k])
  {
    if |errs| == 0 then [] else [Violation(fileName, errs[0])] + Violations(fileName, errs[1..])
  }

  /** The violations of one `<file>` element: one per `<error>` below it. */
  function FileViolations(file: Node): (r: seq<CheckstyleViolation>)
    requires file.Element?
    ensures |r| == CountTag(file.children, "error")
    ensures forall k :: 0 <= k < |r| ==> r[k].file == GetAttribute(file.attributes, "name")
    ensures |r| == |ElementsByTag(file.children, "error")| &&
            forall k :: 0 <= k < |r| ==>
              r[k] == Violation(GetAttribute(file.attributes, "name"), ElementsByTag(file.children, "error")[k])
  {
    ElementsByTagCount(file.children, "error");
    Violations(GetAttribute(file.attributes, "name"), ElementsByTag(file.children, "error"))
  }

  /** The violations of a sequence of `<file>` elements; only elements are ever listed. */
  function AllFiles(files: seq<Node>): seq<CheckstyleViolation> {
    if |files| == 0 then []
    else (if files[0].Element? then FileViolations(files[0]) else []) + AllFiles(files[1..])
  }

  /** The single entry recorded when the result file cannot be read. */
  function ParseError(message: Option<string>): CheckstyleViolation {
    CheckstyleViolation("parse-error", 0, "error", message, "")
  }

  function ErrorsPerFile(files: seq<Node>): nat {
    if |files| == 0 then 0
    else (if files[0].Element? then CountTag(files[0].children, "error") else 0) + ErrorsPerFile(files[1..])
  }

  /**
   * The violations of each `<file>` sit in one block, after those of the
   * files before it, and nothing else is listed.
   */
  predicate ListsFilesInTurn(r: seq<CheckstyleViolation>, files: seq<Node>)
    requires forall k :: 0 <= k < |files| ==> files[k].Element?
  {
    && |r| == ErrorsPerFile(files)
    && forall i :: 0 <= i < |files| ==> BlockAt(r, ErrorsPerFile(files[..i]), FileViolations(files[i]))
  }

  /**
   * `parse`: nothing for a missing file, one `parse-error` entry for an
   * unreadable one, else every `<error>` of every `<file>` in document order.
   */
  function Parse(result: Option<Parsed>): (r: seq<CheckstyleViolation>)
    ensures result.None? ==> r == []
    ensures result.Some? && result.value.Unreadable? ==> r == [ParseError(result.value.message)]
    ensures result.Some? && result.value.Document? ==>
              ListsFilesInTurn(r, ElementsByTag([result.value.root], "file"))
  {
    match result
    case None => []
    case Some(Unreadable(m)) => [ParseError(m)]
    case Some(Document(root)) =>
      FilesInTurn(ElementsByTag([root], "file"));
      AllFiles(ElementsByTag([root], "file"))
  }

  /** A readable result yields as many violations as there are `<error>` elements under its `<file>`s. */
  lemma {:induction false} AllFilesCount(files: seq<Node>)
    ensures |AllFiles(files)| == ErrorsPerFile(files)
  {
    if |files| > 0 {
      AllFilesCount(files[1..]);
    }
  }

  lemma {:induction false} AllFilesAppend(a: seq<Node>, b: seq<Node>)
    ensures AllFiles(a + b) == AllFiles(a) + AllFiles(b)
  {
    if |a| > 0 {
      assert (a + b)[0] == a[0];
      assert (a + b)[1..] == a[1..] + b;
      AllFilesAppend(a[1..], b);
    } else {
      assert a + b == b;
    }
  }

  lemma AllFilesAround(files: seq<Node>, i: nat)
    requires i < |files| && files[i].Element?
    ensures AllFiles(files) == AllFiles(files[..i]) + FileViolations(files[i]) + AllFiles(files[i + 1..])
  {
    var f, before, after := files[i], files[..i], files[i + 1..];
    assert files[i..] == [f] + after;
    assert files == before + files[i..];
    assert files == before + [f] + after;
    AllFilesAppend(before + [f], after);
    AllFilesAppend(before, [f]);
    assert AllFiles([f]) == FileViolations(f) by {
      assert [f][1..] == [];
    }
  }

  lemma FileInPlace(files: seq<Node>, i: nat)
    requires i < |files| && files[i].Element?
    ensures BlockAt(AllFiles(files), ErrorsPerFile(files[..i]), FileViolations(files[i]))
  {
    AllFilesAround(files, i);
    AllFilesCount(files[..i]);
    BlockAtMiddle(AllFiles(files[..i]), FileViolations(files[i]), AllFiles(files[i + 1..]));
  }

  lemma FilesInTurn(files: seq<Node>)
    requires forall k :: 0 <= k < |files| ==> files[k].Element?
    ensures ListsFilesInTurn(AllFiles(files), files)
  {
    AllFilesCount(files);
    forall i | 0 <= i < |files|
      ensures BlockAt(AllFiles(files), ErrorsPerFile(files[..i]), FileViolations(files[i]))
    {
      FileInPlace(files, i);
    }
  }

  /**
   * A result file that exists but cannot be read costs two style points: it
   * counts as exactly one violation.
   */
  lemma UnreadableResultCostsTwoPoints(message: Option<string>)
    ensures Scoring.StyleScore(|Parse(Some(Unreadable(message)))|) == 18
  {
  }

  /** A result without any `<file>` element yields no violation and full style points. */
  lemma CleanResultKeepsStylePoints(root: Node)
    requires CountTag([root], "file") == 0
    ensures Parse(Some(Document(root))) == []
    ensures Scoring.StyleScore(|Parse(Some(Document(root)))|) == 20
  {
    ElementsByTagCount([root], "file");
  }
}
