/**
 * The score of a graded submission
 * (grader/src/main/java/com/javachallenge/grader/score/ScoreCalculator.java):
 * up to 80 points for tests (split 40/40 between visible and hidden tests when
 * hidden tests are configured) and up to 20 for style. `Math.round` of the
 * double pass rate is modelled as exact rounding half up.
 */
module Scoring {
  import opened GraderModel

  /** 20 points, minus 2 per violation, never below 0. */
  function StyleScore(violations: nat): (r: int)
    ensures 0 <= r <= 20
    ensures r == 20 <==> violations == 0
    ensures violations <= 10 ==> r == 20 - 2 * violations
    ensures violations >= 10 ==> r == 0
  {
    if 20 - violations * 2 > 0 then 20 - violations * 2 else 0
  }

  /** `maxPoints · passed / size`, rounded half up; 0 for no tests. */
  function Proportional(passed: nat, size: nat, maxPoints: nat): (r: int)
    requires passed <= size
  {
    if size == 0 then 0 else (2 * passed * maxPoints + size) / (2 * size)
  }

  lemma DivBounds(n: int, d: int, q: int)
    requires d > 0 && q == n / d
    ensures d * q <= n < d * (q + 1)
  {
  }

  /**
   * The rounding is half up: r is the integer with
   * 2·size·r ≤ 2·passed·max + size < 2·size·(r + 1), i.e. the nearest integer
   * to passed·max/size, ties going up.
   */
  lemma ProportionalRoundsHalfUp(passed: nat, size: nat, maxPoints: nat)
    requires passed <= size && size > 0
    ensures var r := Proportional(passed, size, maxPoints);
            2 * size * r <= 2 * passed * maxPoints + size < 2 * size * (r + 1)
  {
    DivBounds(2 * passed * maxPoints + size, 2 * size, Proportional(passed, size, maxPoints));
  }

  lemma MulLe(a: int, b: int, c: int)
    requires 0 <= a <= b && c >= 0
    ensures a * c <= b * c
  {
  }

  /** Cancelling a positive factor: c·a < c·b implies a < b. */
  lemma CancelLt(a: int, b: int, c: int)
    requires c > 0 && c * a < c * b
    ensures a < b
  {
    if a >= b {
      MulLe(b, a, c);
    }
  }

  /** Arithmetic core of the bounds: the rounded quotient of n = 2·p·m + s by 2·s. */
  lemma RoundedQuotientBounds(p: nat, s: nat, m: nat, r: int)
    requires 0 < s && p <= s
    requires 2 * s * r <= 2 * p * m + s < 2 * s * (r + 1)
    ensures 0 <= r <= m
  {
    var c := 2 * s;
    var n := 2 * p * m + s;
    assert 0 <= n by { MulLe(0, p, m); }
    assert n < c * (m + 1) by {
      MulLe(p, s, m);
      assert 2 * p * m == 2 * (p * m);
      assert c * (m + 1) == 2 * (s * m) + 2 * s;
    }
    CancelLt(r, m + 1, c);
    CancelLt(0, r + 1, c);
  }

  lemma RoundedQuotientAll(s: nat, m: nat, r: int)
    requires 0 < s
    requires 2 * s * r <= 2 * s * m + s < 2 * s * (r + 1)
    ensures r == m
  {
    var c := 2 * s;
    assert c * r < c * (m + 1);
    CancelLt(r, m + 1, c);
    assert c * (m - 1) < c * r by {
      assert c * (m - 1) == c * m - c;
    }
    CancelLt(m - 1, r, c);
  }

  lemma RoundedQuotientNone(s: nat, r: int)
    requires 0 < s
    requires 2 * s * r <= s < 2 * s * (r + 1)
    ensures r == 0
  {
    CancelLt(r, 1, 2 * s);
    CancelLt(0, r + 1, 2 * s);
  }

  /** The proportional score lies in [0, max]: max when every test passes, 0 when none does. */
  lemma ProportionalBounds(passed: nat, size: nat, maxPoints: nat)
    requires passed <= size
    ensures 0 <= Proportional(passed, size, maxPoints) <= maxPoints
    ensures size > 0 && passed == size ==> Proportional(passed, size, maxPoints) == maxPoints
    ensures passed == 0 ==> Proportional(passed, size, maxPoints) == 0
  {
    if size > 0 {
      var r := Proportional(passed, size, maxPoints);
      ProportionalRoundsHalfUp(passed, size, maxPoints);
      RoundedQuotientBounds(passed, size, maxPoints, r);
      if passed == size {
        RoundedQuotientAll(size, maxPoints, r);
      }
      if passed == 0 {
        RoundedQuotientNone(size, r);
      }
    }
  }

  lemma RoundedQuotientMonotone(c: int, n1: int, n2: int, r1: int, r2: int)
    requires 0 < c && c * r1 <= n1 <= n2 < c * (r2 + 1)
    ensures r1 <= r2
  {
    CancelLt(r1, r2 + 1, c);
  }

  /** More passing tests never lower the proportional score. */
  lemma ProportionalMonotone(p1: nat, p2: nat, size: nat, maxPoints: nat)
    requires p1 <= p2 <= size
    ensures Proportional(p1, size, maxPoints) <= Proportional(p2, size, maxPoints)
  {
    if size > 0 {
      ProportionalRoundsHalfUp(p1, size, maxPoints);
      ProportionalRoundsHalfUp(p2, size, maxPoints);
      MulLe(2 * p1, 2 * p2, maxPoints);
      RoundedQuotientMonotone(2 * size, 2 * p1 * maxPoints + size, 2 * p2 * maxPoints + size,
        Proportional(p1, size, maxPoints), Proportional(p2, size, maxPoints));
    }
  }

  function CountPassed(tests: seq<TestResult>): (n: nat)
    ensures n <= |tests|
  {
    if |tests| == 0 then 0 else (if tests[0].passed then 1 else 0) + CountPassed(tests[1..])
  }

  function ProportionalScore(tests: seq<TestResult>, maxPoints: nat): int {
    Proportional(CountPassed(tests), |tests|, maxPoints)
  }

  /** The score from counts: passed/total visible tests, passed/total hidden tests, violations. */
  function ScoreOf(visiblePassed: nat, visibleTotal: nat, hiddenPassed: nat, hiddenTotal: nat,
                   violations: nat, hiddenConfigured: bool): int
    requires visiblePassed <= visibleTotal && hiddenPassed <= hiddenTotal
  {
    if !hiddenConfigured then Proportional(visiblePassed, visibleTotal, 80) + StyleScore(violations)
    else Proportional(visiblePassed, visibleTotal, 40) + Proportional(hiddenPassed, hiddenTotal, 40) + StyleScore(violations)
  }

  /** `calculate` with the hidden-tests flag. */
  function Calculate(visible: seq<TestResult>, hidden: seq<TestResult>, violations: seq<CheckstyleViolation>,
                     hiddenConfigured: bool): (r: int)
    ensures 0 <= r <= 100
    ensures r == ScoreOf(CountPassed(visible), |visible|, CountPassed(hidden), |hidden|, |violations|, hiddenConfigured)
  {
    var style := StyleScore(|violations|);
    ProportionalBounds(CountPassed(visible), |visible|, 80);
    ProportionalBounds(CountPassed(visible), |visible|, 40);
    ProportionalBounds(CountPassed(hidden), |hidden|, 40);
    if !hiddenConfigured then ProportionalScore(visible, 80) + style
    else ProportionalScore(visible, 40) + ProportionalScore(hidden, 40) + style
  }

  /** Without hidden tests configured the hidden list plays no part. */
  lemma HiddenIgnoredWhenNotConfigured(visible: seq<TestResult>, h1: seq<TestResult>, h2: seq<TestResult>,
                                       violations: seq<CheckstyleViolation>)
    ensures Calculate(visible, h1, violations, false) == Calculate(visible, h2, violations, false)
    ensures Calculate(visible, h1, violations, false) == ProportionalScore(visible, 80) + StyleScore(|violations|)
  {
  }

  /** A perfect submission, every test passing and no violation, scores 100. */
  lemma PerfectScore(visible: seq<TestResult>, hidden: seq<TestResult>, hiddenConfigured: bool)
    requires |visible| > 0 && CountPassed(visible) == |visible|
    requires hiddenConfigured ==> |hidden| > 0 && CountPassed(hidden) == |hidden|
    ensures Calculate(visible, hidden, [], hiddenConfigured) == 100
  {
    ProportionalBounds(CountPassed(visible), |visible|, 80);
    ProportionalBounds(CountPassed(visible), |visible|, 40);
    ProportionalBounds(CountPassed(hidden), |hidden|, 40);
  }

  /**
   * The score never drops when more tests pass (out of the same totals) or
   * when there are fewer violations.
   */
  lemma ScoreMonotone(vp1: nat, vp2: nat, vt: nat, hp1: nat, hp2: nat, ht: nat, n1: nat, n2: nat, hiddenConfigured: bool)
    requires vp1 <= vp2 <= vt && hp1 <= hp2 <= ht && n2 <= n1
    ensures ScoreOf(vp1, vt, hp1, ht, n1, hiddenConfigured) <= ScoreOf(vp2, vt, hp2, ht, n2, hiddenConfigured)
  {
    ProportionalMonotone(vp1, vp2, vt, 80);
    ProportionalMonotone(vp1, vp2, vt, 40);
    ProportionalMonotone(hp1, hp2, ht, 40);
  }
}
