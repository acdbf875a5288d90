/**
  utils/gradingScales.ts: from a score between 0 and 100 to a Chilean grade
  between 1.0 and 7.0, rounded to one decimal.
 */
module Grading {

  /** The demand levels: 60% or 50% needed for a 4.0, or 0 for a straight proportion. */
  type GradingScale = s: int | s == 0 || s == 50 || s == 60

  function Max(a: real, b: real): real { if a >= b then a else b }
  function Min(a: real, b: real): real { if a <= b then a else b }

  /** `Math.max(0, Math.min(100, score))` */
  function ClampScore(score: real): (c: real)
    ensures 0.0 <= c <= 100.0
    ensures 0.0 <= score <= 100.0 ==> c == score
  {
    Max(0.0, Min(100.0, score))
  }

  /** The grade before clamping and rounding (utils/gradingScales.ts:14-35). */
  function RawGrade(clampedScore: real, scale: GradingScale): (g: real)
    ensures 0.0 <= clampedScore <= 100.0 ==> 1.0 <= g <= 7.0
    ensures 0.0 <= clampedScore && scale != 0 ==> (g < 4.0 <==> clampedScore < scale as real)
  {
    if scale == 0 then (clampedScore / 100.0) * 6.0 + 1.0
    else
      var approvalScore := scale as real;
      var maxScore := 100.0;
      if clampedScore < approvalScore then
        var slope := (4.0 - 1.0) / approvalScore;
        1.0 + slope * clampedScore
      else
        var slope := (7.0 - 4.0) / (maxScore - approvalScore);
        4.0 + slope * (clampedScore - approvalScore)
  }

  /** `Math.round(x)`: the nearest integer, halves rounded up. */
  function Round(x: real): int
  {
    (x + 0.5).Floor
  }

  /** `Math.round(x * 10) / 10` */
  function RoundToTenth(x: real): real
  {
    Round(x * 10.0) as real / 10.0
  }

  /** `g` is a whole number of tenths. */
  predicate IsTenth(g: real)
  {
    (g * 10.0).Floor as real == g * 10.0
  }

  /** `calculateChileanGrade` (utils/gradingScales.ts:11-40), over exact reals. */
  function CalculateChileanGrade(score: real, scale: GradingScale): (g: real)
    ensures 1.0 <= g <= 7.0
    ensures IsTenth(g)
  {
    var clampedScore := ClampScore(score);
    var grade := RawGrade(clampedScore, scale);
    var finalGrade := Min(7.0, Max(1.0, grade));
    RoundBounds(finalGrade);
    RoundToTenth(finalGrade)
  }

  lemma RoundBounds(x: real)
    requires 1.0 <= x <= 7.0
    ensures 1.0 <= RoundToTenth(x) <= 7.0
    ensures IsTenth(RoundToTenth(x))
  {
    var k := Round(x * 10.0);
    assert 10 <= k <= 70;
    assert RoundToTenth(x) * 10.0 == k as real;
  }

  /** Scores below 0 grade like 0, scores above 100 like 100. */
  lemma OutOfRangeScores(score: real, scale: GradingScale)
    ensures score < 0.0 ==> CalculateChileanGrade(score, scale) == CalculateChileanGrade(0.0, scale)
    ensures score > 100.0 ==> CalculateChileanGrade(score, scale) == CalculateChileanGrade(100.0, scale)
  {
  }

  /** With scale 0 the grade grows by 0.06 per point from 1.0, rounded. */
  lemma ProportionalScale(score: real)
    requires 0.0 <= score <= 100.0
    ensures CalculateChileanGrade(score, 0) == RoundToTenth(1.0 + 0.06 * score)
  {
  }

  /** The anchors of the two-segment scales: 0 gives 1.0, the approval score 4.0, and 100 gives 7.0. */
  lemma ScaleAnchors(scale: GradingScale)
    ensures CalculateChileanGrade(0.0, scale) == 1.0
    ensures CalculateChileanGrade(100.0, scale) == 7.0
    ensures scale != 0 ==> CalculateChileanGrade(scale as real, scale) == 4.0
  {
    assert RoundToTenth(1.0) == 1.0;
    assert RoundToTenth(7.0) == 7.0;
    assert RoundToTenth(4.0) == 4.0;
  }

  /** With the 60% scale, a score of 80 is a 5.5. */
  lemma Scale60Score80()
    ensures CalculateChileanGrade(80.0, 60) == 5.5
  {
    assert RawGrade(80.0, 60) == 5.5;
    assert Round(55.0) == 55;
  }

  lemma RawGradeMonotone(a: real, b: real, scale: GradingScale)
    requires 0.0 <= a <= b <= 100.0
    ensures RawGrade(a, scale) <= RawGrade(b, scale)
  {
    if scale == 50 {
      assert RawGrade(a, scale) == 1.0 + 0.06 * a || RawGrade(a, scale) == 4.0 + 0.06 * (a - 50.0);
    } else if scale == 60 {
      if a < 60.0 {
        assert RawGrade(a, scale) == 1.0 + 0.05 * a;
      } else {
        assert RawGrade(a, scale) == 4.0 + 0.075 * (a - 60.0);
      }
      if b < 60.0 {
        assert RawGrade(b, scale) == 1.0 + 0.05 * b;
      } else {
        assert RawGrade(b, scale) == 4.0 + 0.075 * (b - 60.0);
      }
    }
  }

  lemma RoundMonotone(x: real, y: real)
    requires x <= y
    ensures RoundToTenth(x) <= RoundToTenth(y)
  {
    assert Round(x * 10.0) <= Round(y * 10.0);
  }

  /** For a fixed scale a higher score never gives a lower grade. */
  lemma GradeMonotone(a: real, b: real, scale: GradingScale)
    requires a <= b
    ensures CalculateChileanGrade(a, scale) <= CalculateChileanGrade(b, scale)
  {
    RawGradeMonotone(ClampScore(a), ClampScore(b), scale);
    var fa := Min(7.0, Max(1.0, RawGrade(ClampScore(a), scale)));
    var fb := Min(7.0, Max(1.0, RawGrade(ClampScore(b), scale)));
    RoundMonotone(fa, fb);
  }
}
