/**
  components/RubricItem.tsx: the score a teacher types while editing a
  criterion. The text is read with `parseInt(value, 10)`, a failed read
  counts as 0, and the result is clamped to 0..100 before it is handed on.
 */
module RubricItem {
  import opened Types
  import opened Strings

  /** The length of the run of decimal digits at the start of `s`. */
  function DigitRun(s: string): (k: nat)
    ensures k <= |s|
    ensures forall i :: 0 <= i < k ==> IsDigit(s[i])
    ensures k < |s| ==> !IsDigit(s[k])
  {
    if |s| > 0 && IsDigit(s[0]) then 1 + DigitRun(s[1..]) else 0
  }

  /** The longest run of digits at the start of `body`, as a number; `None` when there is none. */
  function ReadDigits(body: string): (r: Option<nat>)
    ensures r.Some? <==> |body| > 0 && IsDigit(body[0])
  {
    var k := DigitRun(body);
    if k == 0 then None
    else
      assert AllDigits(body[..k]);
      Some(DigitsValue(body[..k]))
  }

  /** A number with at most one sign in front, read from text that starts after the whitespace. */
  function ParseSigned(t: string): (r: Option<int>)
    ensures r.Some? ==> |t| > 0 && (IsDigit(t[0]) || ((t[0] == '-' || t[0] == '+') && |t| > 1 && IsDigit(t[1])))
  {
    if |t| > 0 && t[0] == '-' then
      match ReadDigits(t[1..])
      case None => None
      case Some(magnitude) => Some(-(magnitude as int))
    else if |t| > 0 && t[0] == '+' then
      match ReadDigits(t[1..])
      case None => None
      case Some(magnitude) => Some(magnitude)
    else
      match ReadDigits(t)
      case None => None
      case Some(magnitude) => Some(magnitude)
  }

  /**
    `parseInt(value, 10)`: leading whitespace is skipped, one sign is
    allowed, then the longest run of digits is read and whatever follows is
    ignored; with no digit at all the result is `NaN`, here `None`.
   */
  function ParseInt(value: string): (r: Option<int>)
    ensures r.Some? ==> exists i :: 0 <= i < |value| && IsDigit(value[i])
  {
    var k := LeadingSpaces(value);
    var t := value[k..];
    assert forall j :: 0 <= j < |t| ==> t[j] == value[k + j];
    ParseSigned(t)
  }

  function Max(a: int, b: int): int { if a >= b then a else b }
  function Min(a: int, b: int): int { if a <= b then a else b }

  /** `if (isNaN(newScore)) newScore = 0` and `Math.max(0, Math.min(100, newScore))` (components/RubricItem.tsx:19-21). */
  function Clamp(parsed: Option<int>): (score: int)
    ensures 0 <= score <= 100
    ensures parsed.None? ==> score == 0
    ensures parsed.Some? && 0 <= parsed.value <= 100 ==> score == parsed.value
    ensures parsed.Some? && parsed.value > 100 ==> score == 100
    ensures parsed.Some? && parsed.value < 0 ==> score == 0
  {
    var newScore := if parsed.None? then 0 else parsed.value;
    Max(0, Min(100, newScore))
  }

  /** `handleScoreInputChange` (components/RubricItem.tsx:17-23): the score passed to `onScoreChange`. */
  function HandleScoreInputChange(value: string): (score: int)
    ensures 0 <= score <= 100
    ensures ParseInt(value).None? ==> score == 0
  {
    Clamp(ParseInt(value))
  }

  /** Clamping a clamped score changes nothing. */
  lemma {:induction false} ClampIdempotent(parsed: Option<int>)
    ensures Clamp(Some(Clamp(parsed))) == Clamp(parsed)
  {
  }

  lemma {:induction false} DigitRunOfDigits(d: string, rest: string)
    requires AllDigits(d)
    requires rest == [] || !IsDigit(rest[0])
    ensures DigitRun(d + rest) == |d|
  {
    if |d| > 0 {
      assert (d + rest)[1..] == d[1..] + rest;
      DigitRunOfDigits(d[1..], rest);
    } else {
      assert d + rest == rest;
    }
  }

  lemma {:induction false} DigitIsNotSpace(c: char)
    requires IsDigit(c)
    ensures !IsJsSpace(c)
  {
  }

  /** The digits of `n`, followed by a non-digit or nothing, read as `n`. */
  lemma {:induction false} DigitsReadBack(n: nat, rest: string)
    requires rest == [] || !IsDigit(rest[0])
    ensures ReadDigits(NatToString(n) + rest) == Some(n)
  {
    var d := NatToString(n);
    NatToStringValue(n);
    DigitRunOfDigits(d, rest);
    assert (d + rest)[..|d|] == d;
  }

  /**
    The decimal text of a number, optionally signed and followed by
    anything that does not start with a digit, reads back as that number.
   */
  lemma {:induction false} ParseIntOfNat(n: nat, rest: string)
    requires rest == [] || !IsDigit(rest[0])
    ensures ParseInt(NatToString(n) + rest) == Some(n)
  {
    var body := NatToString(n) + rest;
    DigitsReadBack(n, rest);
    DigitIsNotSpace(body[0]);
    assert body[LeadingSpaces(body)..] == body;
  }

  lemma {:induction false} ParseIntOfNegative(n: nat, rest: string)
    requires rest == [] || !IsDigit(rest[0])
    ensures var r := ParseInt("-" + NatToString(n) + rest); r.Some? && r.value + n == 0
  {
    var body := NatToString(n) + rest;
    DigitsReadBack(n, rest);
    var m := "-" + NatToString(n) + rest;
    assert m == ['-'] + body;
    assert LeadingSpaces(m) == 0;
    assert m[1..] == body;
    assert ParseSigned(m) == Some(-(n as int));
  }

  lemma {:induction false} ParseIntOfPlus(n: nat, rest: string)
    requires rest == [] || !IsDigit(rest[0])
    ensures ParseInt("+" + NatToString(n) + rest) == Some(n)
  {
    var body := NatToString(n) + rest;
    DigitsReadBack(n, rest);
    var p := "+" + NatToString(n) + rest;
    assert p == ['+'] + body;
    assert LeadingSpaces(p) == 0;
    assert p[1..] == body;
    assert ParseSigned(p) == Some(n);
  }

  /** Whitespace in front of the text does not change what it reads as. */
  lemma {:induction false} ParseIntSkipsSpace(c: char, value: string)
    requires IsJsSpace(c)
    ensures ParseInt([c] + value) == ParseInt(value)
  {
    var s := [c] + value;
    assert s[1..] == value;
    assert LeadingSpaces(s) == 1 + LeadingSpaces(value);
    assert s[LeadingSpaces(s)..] == value[LeadingSpaces(value)..];
  }

  /** A whole number typed between 0 and 100 is the score handed on. */
  lemma {:induction false} InRangeInputKept(n: nat)
    requires n <= 100
    ensures HandleScoreInputChange(NatToString(n)) == n
  {
    ParseIntOfNat(n, "");
    assert NatToString(n) + "" == NatToString(n);
  }

  /** A number above 100 becomes 100, and a negative one becomes 0. */
  lemma {:induction false} OutOfRangeInput(n: nat)
    ensures n > 100 ==> HandleScoreInputChange(NatToString(n)) == 100
    ensures n > 0 ==> HandleScoreInputChange("-" + NatToString(n)) == 0
  {
    ParseIntOfNat(n, "");
    ParseIntOfNegative(n, "");
    assert NatToString(n) + "" == NatToString(n);
    assert "-" + NatToString(n) + "" == "-" + NatToString(n);
  }

  /** Text with no digit after the optional sign, such as an empty field, gives 0. */
  lemma {:induction false} NonNumericInputIsZero(value: string)
    requires var t := value[LeadingSpaces(value)..];
      var body := if |t| > 0 && (t[0] == '-' || t[0] == '+') then t[1..] else t;
      body == [] || !IsDigit(body[0])
    ensures HandleScoreInputChange(value) == 0
  {
  }

  /** Typing back the score that was handed on hands on the same score. */
  lemma {:induction false} HandleIdempotent(value: string)
    ensures HandleScoreInputChange(NatToString(HandleScoreInputChange(value))) == HandleScoreInputChange(value)
  {
    InRangeInputKept(HandleScoreInputChange(value));
  }
}
