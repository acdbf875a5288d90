/**
  utils/colors.ts: the colour of a score. Three functions answer in three
  vocabularies (Tailwind background and text classes, a text class alone,
  a hexadecimal colour) with the same thresholds, 80, 60 and 40.
 */
module Colors {

  datatype ColorStyles = ColorStyles(bg: string, text: string)

  /** How many of the thresholds 40, 60 and 80 the score reaches: 0 is red, 3 is green. */
  function Level(score: real): (n: nat)
    ensures n <= 3
  {
    (if score >= 40.0 then 1 else 0) + (if score >= 60.0 then 1 else 0) + (if score >= 80.0 then 1 else 0)
  }

  /** The four values of each function, from the lowest band to the highest. */
  const StylesScale: seq<ColorStyles> := [
    ColorStyles("bg-red-500", "text-red-300"),
    ColorStyles("bg-orange-500", "text-orange-300"),
    ColorStyles("bg-yellow-500", "text-yellow-300"),
    ColorStyles("bg-green-500", "text-green-300")]
  const ClassScale: seq<string> := ["text-red-400", "text-orange-400", "text-yellow-400", "text-green-400"]
  const HexScale: seq<string> := ["#f87171", "#fb923c", "#facc15", "#4ade80"]

  /** `getScoreColorStyles` (utils/colors.ts:6-11) */
  function GetScoreColorStyles(score: real): (r: ColorStyles)
    ensures r in StylesScale
  {
    if score >= 80.0 then ColorStyles("bg-green-500", "text-green-300")
    else if score >= 60.0 then ColorStyles("bg-yellow-500", "text-yellow-300")
    else if score >= 40.0 then ColorStyles("bg-orange-500", "text-orange-300")
    else ColorStyles("bg-red-500", "text-red-300")
  }

  /** `getScoreColorClass` (utils/colors.ts:18-23) */
  function GetScoreColorClass(score: real): (r: string)
    ensures r in ClassScale
  {
    if score >= 80.0 then "text-green-400"
    else if score >= 60.0 then "text-yellow-400"
    else if score >= 40.0 then "text-orange-400"
    else "text-red-400"
  }

  /** `getScoreHexColor` (utils/colors.ts:30-35) */
  function GetScoreHexColor(score: real): (r: string)
    ensures r in HexScale
  {
    if score >= 80.0 then "#4ade80"
    else if score >= 60.0 then "#facc15"
    else if score >= 40.0 then "#fb923c"
    else "#f87171"
  }

  /** All three functions pick the entry of their scale given by the number of thresholds reached. */
  lemma ColorsFollowLevel(score: real)
    ensures GetScoreColorStyles(score) == StylesScale[Level(score)]
    ensures GetScoreColorClass(score) == ClassScale[Level(score)]
    ensures GetScoreHexColor(score) == HexScale[Level(score)]
  {
  }

  /** The thresholds are inclusive, and everything below 40, negative scores included, is red. */
  lemma Bands(score: real)
    ensures score >= 80.0 ==> Level(score) == 3
    ensures 60.0 <= score < 80.0 ==> Level(score) == 2
    ensures 40.0 <= score < 60.0 ==> Level(score) == 1
    ensures score < 40.0 ==> Level(score) == 0
  {
  }

  /** Each scale has four different values, so a value names its band. */
  lemma ScalesDistinct()
    ensures forall i, j :: 0 <= i < j < 4 ==> StylesScale[i] != StylesScale[j]
    ensures forall i, j :: 0 <= i < j < 4 ==> ClassScale[i] != ClassScale[j]
    ensures forall i, j :: 0 <= i < j < 4 ==> HexScale[i] != HexScale[j]
  {
    assert ClassScale[0][5] == 'r' && ClassScale[1][5] == 'o' && ClassScale[2][5] == 'y' && ClassScale[3][5] == 'g';
    assert StylesScale[0].bg[3] == 'r' && StylesScale[1].bg[3] == 'o' && StylesScale[2].bg[3] == 'y' && StylesScale[3].bg[3] == 'g';
    assert HexScale[0][1] == 'f' && HexScale[1][1] == 'f' && HexScale[2][1] == 'f' && HexScale[3][1] == '4';
    assert HexScale[0][2] == '8' && HexScale[1][2] == 'b' && HexScale[2][2] == 'a';
  }

  /** The band of a score as read from any of the three answers. */
  function StylesBand(r: ColorStyles): int
  {
    if r == StylesScale[3] then 3 else if r == StylesScale[2] then 2 else if r == StylesScale[1] then 1 else 0
  }

  function ClassBand(r: string): int
  {
    if r == ClassScale[3] then 3 else if r == ClassScale[2] then 2 else if r == ClassScale[1] then 1 else 0
  }

  function HexBand(r: string): int
  {
    if r == HexScale[3] then 3 else if r == HexScale[2] then 2 else if r == HexScale[1] then 1 else 0
  }

  /** The three functions put every score in the same band. */
  lemma SameBand(score: real)
    ensures StylesBand(GetScoreColorStyles(score)) == Level(score)
    ensures ClassBand(GetScoreColorClass(score)) == Level(score)
    ensures HexBand(GetScoreHexColor(score)) == Level(score)
  {
    ColorsFollowLevel(score);
    ScalesDistinct();
  }

  /** Raising a score never moves it to a lower band. */
  lemma BandMonotone(a: real, b: real)
    requires a <= b
    ensures Level(a) <= Level(b)
    ensures ClassBand(GetScoreColorClass(a)) <= ClassBand(GetScoreColorClass(b))
    ensures StylesBand(GetScoreColorStyles(a)) <= StylesBand(GetScoreColorStyles(b))
    ensures HexBand(GetScoreHexColor(a)) <= HexBand(GetScoreHexColor(b))
  {
    SameBand(a);
    SameBand(b);
  }
}
