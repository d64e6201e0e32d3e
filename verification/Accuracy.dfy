/** The source's `(score / totalQuestions) * 100`, evaluated in exact rational
    arithmetic instead of IEEE doubles. Division by zero follows JavaScript:
    a positive score over zero is +Infinity, zero over zero is NaN (which
    compares false with everything), a negative score over zero is -Infinity. */
module Accuracy {

  /** `(score / total) * 100 >= pct`. */
  predicate MeetsPercent(score: int, total: int, pct: int) {
    if total > 0 then 100 * score >= pct * total
    else if total < 0 then 100 * score <= pct * total
    else score > 0
  }

  /** `Math.floor((score / total) * 100)` for a non-zero total. */
  function FloorPercent(score: int, total: int): (r: int)
    requires total != 0
    ensures total > 0 ==> r * total <= 100 * score < (r + 1) * total
    ensures total < 0 ==> r * total >= 100 * score > (r + 1) * total
  {
    if total > 0 then (100 * score) / total else (-100 * score) / (-total)
  }

  lemma MulCancel(a: int, b: int, c: int)
    requires c > 0 && a * c < b * c
    ensures a < b
  {
    assert (b - a) * c == b * c - a * c;
  }

  /** A larger score never lowers the floored percentage. */
  lemma FloorPercentMonotone(s1: int, s2: int, total: int)
    requires total > 0 && s1 <= s2
    ensures FloorPercent(s1, total) <= FloorPercent(s2, total)
  {
    var r1, r2 := FloorPercent(s1, total), FloorPercent(s2, total);
    MulCancel(r1, r2 + 1, total);
  }

  /** For 0 <= score <= total the floored percentage lies in 0..100. */
  lemma FloorPercentRange(score: int, total: int)
    requires total != 0
    ensures total > 0 && 0 <= score <= total ==> 0 <= FloorPercent(score, total) <= 100
  {
    if total > 0 && 0 <= score <= total {
      var r := FloorPercent(score, total);
      MulCancel(-1, r, total);
      MulCancel(r, 101, total);
    }
  }
}
