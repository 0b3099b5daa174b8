/**
 * The frontend's presentation rules: the text colour of a submission status,
 * the colour band of a score and the badge of a difficulty. Scores reach the
 * browser as whole numbers, so they are integers here.
 */
module UiRules {
  import Entities

  const Green := "text-green-400"
  const Amber := "text-amber-400"
  const Red := "text-red-400"
  const DarkRed := "text-red-500"
  const Muted := "text-muted"

  function StatusColor(status: string): (r: string)
    ensures status == "passed" ==> r == Green
    ensures status == "failed" ==> r == Red
    ensures status == "running" ==> r == Amber
    ensures status == "error" ==> r == DarkRed
    ensures r == Muted <==> status !in {"passed", "failed", "running", "error"}
  {
    if status == "passed" then Green
    else if status == "failed" then Red
    else if status == "running" then Amber
    else if status == "error" then DarkRed
    else Muted
  }

  /** A waiting submission is shown muted; every other status has its own colour. */
  lemma StatusColorsOfSubmissions(s: Entities.Status)
    ensures StatusColor(Entities.StatusName(s)) == Muted <==> s == Entities.Pending
  {
  }

  /** Two statuses share a colour only when they are the same status. */
  lemma StatusColorsDistinct(s: Entities.Status, t: Entities.Status)
    ensures StatusColor(Entities.StatusName(s)) == StatusColor(Entities.StatusName(t)) <==> s == t
  {
  }

  /** The band of a score: 0 red, 1 amber, 2 green. */
  function Band(score: int): (b: nat)
    ensures b <= 2
    ensures b == 2 <==> score >= 80
    ensures b == 1 <==> 60 <= score < 80
    ensures b == 0 <==> score < 60
  {
    if score >= 80 then 2 else if score >= 60 then 1 else 0
  }

  function ScoreColor(score: int): (r: string)
    ensures r == Green <==> score >= 80
    ensures r == Amber <==> 60 <= score < 80
    ensures r == Red <==> score < 60
    ensures r in {Green, Amber, Red}
  {
    if score >= 80 then Green
    else if score >= 60 then Amber
    else Red
  }

  /** Raising a score never moves it to a worse colour. */
  lemma ScoreColorMonotone(a: int, b: int)
    requires a <= b
    ensures ScoreColor(a) == Green ==> ScoreColor(b) == Green
    ensures ScoreColor(a) == Amber ==> ScoreColor(b) in {Amber, Green}
    ensures Band(a) <= Band(b)
  {
  }

  const HardBadge := "bg-red-900/40 text-red-300 border border-red-700"
  const OtherBadge := "bg-amber-900/40 text-amber-300 border border-amber-700"

  function DifficultyBadge(difficulty: string): (r: string)
    ensures r == HardBadge <==> difficulty == "hard"
    ensures r == OtherBadge <==> difficulty != "hard"
  {
    if difficulty == "hard" then HardBadge else OtherBadge
  }
}
