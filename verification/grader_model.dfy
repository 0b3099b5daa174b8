/**
 * The grading service's result records (grader/src/main/java/com/javachallenge/grader/model/).
 * Test times are doubles and are left out; a message that may be null is an `Option`.
 */
module GraderModel {
  import opened Wrappers

  datatype TestResult = TestResult(name: string, passed: bool, errorMessage: Option<string>)

  datatype CheckstyleViolation = CheckstyleViolation(
    file: string,
    line: int,
    severity: string,
    message: Option<string>,
    rule: string)

  /**
   * The grading service's reply. The three JSON fields are modelled by the lists they
   * serialise; the literal "[]" of the error path is the empty list.
   */
  datatype GraderResult = GraderResult(
    passed: bool,
    score: int,
    visibleTests: seq<TestResult>,
    hiddenTests: seq<TestResult>,
    violations: seq<CheckstyleViolation>,
    log: string)

  /** `part` occurs in `s` starting at index `at`. */
  predicate BlockAt<T(==)>(s: seq<T>, at: nat, part: seq<T>) {
    at + |part| <= |s| && s[at..at + |part|] == part
  }

  lemma BlockAtMiddle<T>(a: seq<T>, b: seq<T>, c: seq<T>)
    ensures BlockAt(a + b + c, |a|, b)
  {
    assert (a + b + c)[|a|..|a| + |b|] == b;
  }
}
