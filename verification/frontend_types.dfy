/**
 * The shapes the frontend receives from the backend (frontend/src/types/index.ts):
 * the challenge and submission records, the fixed category table and the
 * challenge-type default.
 */
module FrontendTypes {
  import opened Wrappers

  /** The five status strings a submission record can carry. */
  predicate IsSubmissionStatus(s: string) {
    s == "pending" || s == "running" || s == "passed" || s == "failed" || s == "error"
  }

  /** A submission as received in JSON; timestamps are left out. */
  datatype Submission = Submission(
    id: nat,
    challengeId: nat,
    challengeTitle: string,
    status: string,
    score: Option<int>,
    visibleTestsJson: Option<string>,
    hiddenTestsJson: Option<string>,
    checkstyleViolationsJson: Option<string>)

  /** The part of a challenge record `getChallengeType` reads; the field may be missing at runtime. */
  datatype Challenge = Challenge(id: nat, topicId: int, title: string, challengeType: Option<string>)

  /** `challenge.challengeType || "refactor"`: a missing or empty type falls back to "refactor". */
  function GetChallengeType(c: Challenge): (r: string)
    ensures c.challengeType.Some? && c.challengeType.value != "" ==> r == c.challengeType.value
    ensures c.challengeType.None? || c.challengeType.value == "" ==> r == "refactor"
    ensures r != ""
  {
    if c.challengeType.Some? && c.challengeType.value != "" then c.challengeType.value else "refactor"
  }

  datatype Category = Category(name: string, description: string)

  const Categories: map<int, Category> := map[
    1 := Category("Core Foundations", "Strings, primitives, and fundamental patterns"),
    2 := Category("Object-Oriented Design", "Encapsulation, contracts, and class architecture"),
    3 := Category("Data Structures", "Arrays, lists, and type-safe collections"),
    4 := Category("Type Safety & Generics", "Generic types, bounded wildcards, and type erasure"),
    5 := Category("Functional Patterns", "Lambdas, streams, and declarative pipelines"),
    6 := Category("Collections Mastery", "Maps, sets, iteration patterns, and null safety")
  ]

  /** The category table covers exactly the topic ids 1..6, each with a name and a description. */
  lemma CategoriesCoverTopics()
    ensures forall id :: id in Categories <==> 1 <= id <= 6
    ensures forall id :: id in Categories ==> Categories[id].name != "" && Categories[id].description != ""
  {
    assert Categories.Keys == {1, 2, 3, 4, 5, 6};
  }
}
