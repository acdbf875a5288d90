/**
  utils/rubricParser.ts: the criteria of a rubric are its second-level
  markdown headings. The regular expression `/^##\s.*$/gm` is modelled as
  it behaves: `^` holds at the start of the text and after a line
  terminator, `\s` is any white space including a line terminator, `.`
  is any character but a line terminator, and the search resumes where the
  previous match ended.
 */
module Rubric {
  import opened Strings
  import opened Types

  /** The line terminators of ECMAScript: LF, CR, U+2028 and U+2029. */
  predicate IsLineTerminator(c: char)
  {
    c == '\n' || c == '\r' || c == '\U{2028}' || c == '\U{2029}'
  }

  lemma {:induction false} LineTerminatorIsSpace(c: char)
    requires IsLineTerminator(c)
    ensures IsJsSpace(c)
  {
  }

  predicate NoTerminator(s: string)
  {
    forall i :: 0 <= i < |s| ==> !IsLineTerminator(s[i])
  }

  /** How far `.*` reaches: the number of characters before the first line terminator. */
  function LineLength(s: string): (k: nat)
    ensures k <= |s|
    ensures NoTerminator(s[..k])
    ensures k < |s| ==> IsLineTerminator(s[k])
  {
    if |s| == 0 || IsLineTerminator(s[0]) then 0
    else
      var k := LineLength(s[1..]);
      assert forall i :: 0 <= i < k ==> s[..k + 1][i + 1] == s[1..][..k][i];
      1 + k
  }

  /** `##` and a white space character start the text. */
  predicate MatchStart(s: string)
  {
    |s| >= 3 && s[0] == '#' && s[1] == '#' && IsJsSpace(s[2])
  }

  /**
    The matches of `/^##\s.*$/gm` in `s`, where `atLineStart` says whether
    `^` holds before the first character of `s` (the text so far is empty
    or ends with a line terminator).
   */
  function Scan(s: string, atLineStart: bool): (r: seq<string>)
    ensures forall i :: 0 <= i < |r| ==> MatchStart(r[i]) && NoTerminator(r[i][3..])
    decreases |s|
  {
    if |s| == 0 then []
    else if atLineStart && MatchStart(s) then
      var e := 3 + LineLength(s[3..]);
      assert s[..e][3..] == s[3..][..e - 3];
      [s[..e]] + Scan(s[e..], IsLineTerminator(s[e - 1]))
    else Scan(s[1..], IsLineTerminator(s[0]))
  }

  /** One match cleaned up: `##` and the white space after it removed, then trimmed. */
  function Criterion(m: string): string
    requires |m| >= 2
  {
    var rest := m[2..];
    Trim(rest[LeadingSpaces(rest)..])
  }

  function Criteria(matches: seq<string>): seq<string>
    requires forall i :: 0 <= i < |matches| ==> |matches[i]| >= 2
  {
    if |matches| == 0 then [] else [Criterion(matches[0])] + Criteria(matches[1..])
  }

  /** Every match is at least the `##` and the white space after it. */
  lemma {:induction false} ScanMatchesLong(s: string, atLineStart: bool)
    ensures forall i :: 0 <= i < |Scan(s, atLineStart)| ==> |Scan(s, atLineStart)[i]| >= 3
    decreases |s|
  {
    if |s| > 0 {
      if atLineStart && MatchStart(s) {
        var e := 3 + LineLength(s[3..]);
        ScanMatchesLong(s[e..], IsLineTerminator(s[e - 1]));
      } else {
        ScanMatchesLong(s[1..], IsLineTerminator(s[0]));
      }
    }
  }

  /** `getCriteriaFromRubric` (utils/rubricParser.ts:10-26). */
  function GetCriteriaFromRubric(rubricText: string): (r: seq<string>)
    ensures rubricText == "" ==> r == []
    ensures |r| == |Scan(rubricText, true)|
  {
    if rubricText == "" then []
    else
      var matches := Scan(rubricText, true);
      ScanMatchesLong(rubricText, true);
      CriteriaLength(matches);
      Criteria(matches)
  }

  lemma {:induction false} CriteriaLength(matches: seq<string>)
    requires forall i :: 0 <= i < |matches| ==> |matches[i]| >= 2
    ensures |Criteria(matches)| == |matches|
  {
    if |matches| > 0 {
      CriteriaLength(matches[1..]);
    }
  }

  // ---------------------------------------------------------------------
  // A line-by-line reading of the same rule, and where the two agree.

  /** The lines of `s`: the pieces between line terminators. */
  function SplitLines(s: string): (lines: seq<string>)
    ensures |lines| >= 1
  {
    if |s| == 0 then [""]
    else
      var rest := SplitLines(s[1..]);
      if IsLineTerminator(s[0]) then [""] + rest else [[s[0]] + rest[0]] + rest[1..]
  }

  /** A heading line: `##`, then a white space character. */
  predicate IsHeading(line: string)
  {
    MatchStart(line)
  }

  /** The heading text of each heading line, in order: `##` and the white space after it removed, then trimmed. */
  function HeadingTitles(lines: seq<string>): seq<string>
  {
    if |lines| == 0 then []
    else if IsHeading(lines[0]) then [Criterion(lines[0])] + HeadingTitles(lines[1..])
    else HeadingTitles(lines[1..])
  }

  lemma {:induction false} HeadingTitlesAppend(a: seq<string>, b: seq<string>)
    ensures HeadingTitles(a + b) == HeadingTitles(a) + HeadingTitles(b)
  {
    if |a| == 0 {
      assert a + b == b;
    } else {
      assert (a + b)[1..] == a[1..] + b;
      HeadingTitlesAppend(a[1..], b);
    }
  }

  /** Lines beginning with `###` or a single `#`, and `##` followed by anything but white space, are not criteria. */
  lemma {:induction false} NotHeadings(line: string)
    ensures StartsWith(line, "###") ==> !IsHeading(line)
    ensures |line| >= 1 && line[0] == '#' && (|line| == 1 || line[1] != '#') ==> !IsHeading(line)
    ensures StartsWith(line, "##") && |line| >= 3 && !IsJsSpace(line[2]) ==> !IsHeading(line)
  {
    if StartsWith(line, "###") {
      assert line[2] == "###"[2];
    }
  }

  /** A line that is exactly `##` and is not the last one: there, `\s` matches the line terminator. */
  predicate NoBareHeading(lines: seq<string>)
  {
    forall i :: 0 <= i < |lines| - 1 ==> lines[i] != "##"
  }

  lemma {:induction false} SplitLinesNone(s: string)
    requires NoTerminator(s)
    ensures SplitLines(s) == [s]
  {
    if |s| > 0 {
      SplitLinesNone(s[1..]);
      assert [s[0]] + s[1..] == s;
    }
  }

  lemma {:induction false} SplitLinesAround(line: string, t: char, rest: string)
    requires NoTerminator(line) && IsLineTerminator(t)
    ensures SplitLines(line + [t] + rest) == [line] + SplitLines(rest)
  {
    if |line| == 0 {
      assert line + [t] + rest == [t] + rest;
      assert ([t] + rest)[1..] == rest;
    } else {
      assert (line + [t] + rest)[1..] == line[1..] + [t] + rest;
      SplitLinesAround(line[1..], t, rest);
      assert [line[0]] + line[1..] == line;
    }
  }

  /** Away from the start of a line nothing matches up to and including the next line terminator. */
  lemma {:induction false} ScanSkipsLine(x: string, t: char, rest: string)
    requires NoTerminator(x) && IsLineTerminator(t)
    ensures Scan(x + [t] + rest, false) == Scan(rest, true)
  {
    if |x| == 0 {
      assert x + [t] + rest == [t] + rest;
      assert ([t] + rest)[1..] == rest;
    } else {
      assert (x + [t] + rest)[1..] == x[1..] + [t] + rest;
      ScanSkipsLine(x[1..], t, rest);
    }
  }

  lemma {:induction false} ScanSkipsLast(x: string)
    requires NoTerminator(x)
    ensures Scan(x, false) == []
  {
    if |x| > 0 {
      ScanSkipsLast(x[1..]);
    }
  }

  lemma {:induction false} LineLengthAround(x: string, t: char, rest: string)
    requires NoTerminator(x) && IsLineTerminator(t)
    ensures LineLength(x + [t] + rest) == |x|
  {
    if |x| == 0 {
      assert (x + [t] + rest)[0] == t;
    } else {
      assert (x + [t] + rest)[1..] == x[1..] + [t] + rest;
      LineLengthAround(x[1..], t, rest);
    }
  }

  lemma {:induction false} LineLengthNone(x: string)
    requires NoTerminator(x)
    ensures LineLength(x) == |x|
  {
    if |x| > 0 {
      LineLengthNone(x[1..]);
    }
  }

  /** One line followed by a terminator, read from its start. */
  lemma {:induction false} ScanLine(line: string, t: char, rest: string)
    requires NoTerminator(line) && IsLineTerminator(t) && line != "##"
    ensures Scan(line + [t] + rest, true) == (if IsHeading(line) then [line] else []) + Scan(rest, true)
  {
    var s := line + [t] + rest;
    if IsHeading(line) {
      assert s[3..] == line[3..] + [t] + rest;
      LineLengthAround(line[3..], t, rest);
      var e := |line|;
      assert s[..e] == line;
      assert s[e..] == [t] + rest;
      assert ([t] + rest)[1..] == rest;
      assert Scan([t] + rest, false) == Scan(rest, true);
    } else {
      assert !MatchStart(s) by {
        if |line| >= 3 {
          assert s[0] == line[0] && s[1] == line[1] && s[2] == line[2];
        } else if |line| == 2 {
          assert s[0] == line[0] && s[1] == line[1] && s[2] == t;
          assert line == [line[0], line[1]];
        } else if |line| == 1 {
          assert s[1] == t;
        } else {
          assert s[0] == t;
        }
      }
      if |line| == 0 {
        assert s == [t] + rest;
        assert s[1..] == rest;
      } else {
        assert s[1..] == line[1..] + [t] + rest;
        ScanSkipsLine(line[1..], t, rest);
      }
    }
  }

  /** The last line, with no terminator after it. */
  lemma {:induction false} ScanLastLine(line: string)
    requires NoTerminator(line)
    ensures Scan(line, true) == (if IsHeading(line) then [line] else [])
  {
    if |line| > 0 {
      if IsHeading(line) {
        LineLengthNone(line[3..]);
        assert line[..|line|] == line;
        assert Scan(line[|line|..], IsLineTerminator(line[|line| - 1])) == [];
      } else {
        ScanSkipsLast(line[1..]);
      }
    }
  }

  /**
    Unless a line other than the last is exactly `##`, the matches are the
    heading lines of the text, one per line and in order.
   */
  lemma {:induction false} ScanIsHeadingLines(s: string)
    requires NoBareHeading(SplitLines(s))
    ensures Scan(s, true) == HeadingLinesOf(SplitLines(s))
    decreases |s|
  {
    var k := LineLength(s);
    if k == |s| {
      assert s[..k] == s;
      SplitLinesNone(s);
      ScanLastLine(s);
    } else {
      var line, t, rest := s[..k], s[k], s[k + 1..];
      assert s == line + [t] + rest;
      SplitLinesAround(line, t, rest);
      assert SplitLines(s) == [line] + SplitLines(rest);
      assert line != "##" by {
        assert SplitLines(s)[0] == line;
      }
      assert NoBareHeading(SplitLines(rest)) by {
        forall i | 0 <= i < |SplitLines(rest)| - 1
          ensures SplitLines(rest)[i] != "##"
        {
          assert SplitLines(rest)[i] == SplitLines(s)[i + 1];
        }
      }
      ScanLine(line, t, rest);
      ScanIsHeadingLines(rest);
      assert ([line] + SplitLines(rest))[1..] == SplitLines(rest);
    }
  }

  /** The heading lines, uncleaned. */
  function HeadingLinesOf(lines: seq<string>): (r: seq<string>)
    ensures forall i :: 0 <= i < |r| ==> IsHeading(r[i])
  {
    if |lines| == 0 then []
    else if IsHeading(lines[0]) then [lines[0]] + HeadingLinesOf(lines[1..])
    else HeadingLinesOf(lines[1..])
  }

  lemma {:induction false} CriteriaOfHeadingLines(lines: seq<string>)
    ensures Criteria(HeadingLinesOf(lines)) == HeadingTitles(lines)
  {
    if |lines| > 0 {
      CriteriaOfHeadingLines(lines[1..]);
    }
  }

  /**
    Unless a line other than the last is exactly `##`, there is one criterion
    per heading line, in text order: the line with `##` and the white space
    after it removed, then trimmed.
   */
  lemma {:induction false} CriteriaAreHeadingTitles(rubricText: string)
    requires NoBareHeading(SplitLines(rubricText))
    ensures GetCriteriaFromRubric(rubricText) == HeadingTitles(SplitLines(rubricText))
  {
    ScanIsHeadingLines(rubricText);
    CriteriaOfHeadingLines(SplitLines(rubricText));
    if rubricText == "" {
      assert SplitLines(rubricText) == [""];
      assert HeadingTitles([""]) == [];
    }
  }

  /**
    A line that is exactly `##` swallows the next line: the white space the
    regular expression requires is the line terminator itself.
   */
  lemma {:induction false} BareHeadingSwallowsNextLine(t: char, line: string)
    requires IsLineTerminator(t) && NoTerminator(line)
    ensures Scan("##" + [t] + line, true) == ["##" + [t] + line]
  {
    var s := "##" + [t] + line;
    assert s[..3] == "##" + [t];
    assert s[3..] == line;
    LineLengthNone(line);
    assert s[..|s|] == s;
    assert s[|s|..] == [];
  }

  /** The message with which a rubric without criteria is refused (hooks/useEvaluation.ts:25-28). */
  const NoCriteriaMessage: string :=
    "La rúbrica proporcionada no tiene un formato válido o no contiene criterios. Asegúrate de que cada criterio comience con '## X. ...'."

  /** The validation step before an evaluation: `None` when the rubric is accepted. */
  function ValidateRubric(rubricText: string): (error: Option<string>)
    ensures error.None? <==> |Scan(rubricText, true)| > 0
    ensures error.Some? ==> error.value == NoCriteriaMessage
  {
    if |GetCriteriaFromRubric(rubricText)| == 0 then Some(NoCriteriaMessage) else None
  }

  /** Unless a non-final line is exactly `##`, a rubric is accepted exactly when some line is a heading. */
  lemma {:induction false} AcceptedIffHeading(rubricText: string)
    requires NoBareHeading(SplitLines(rubricText))
    ensures ValidateRubric(rubricText).None? <==>
      exists i :: 0 <= i < |SplitLines(rubricText)| && IsHeading(SplitLines(rubricText)[i])
  {
    ScanIsHeadingLines(rubricText);
    HeadingLinesNonEmpty(SplitLines(rubricText));
  }

  lemma {:induction false} HeadingLinesNonEmpty(lines: seq<string>)
    ensures |HeadingLinesOf(lines)| > 0 <==> exists i :: 0 <= i < |lines| && IsHeading(lines[i])
  {
    if |lines| > 0 {
      HeadingLinesNonEmpty(lines[1..]);
      if exists i :: 0 <= i < |lines| && IsHeading(lines[i]) {
        var i :| 0 <= i < |lines| && IsHeading(lines[i]);
        if i > 0 {
          assert lines[1..][i - 1] == lines[i];
        }
      }
      if exists i :: 0 <= i < |lines| - 1 && IsHeading(lines[1..][i]) {
        var i :| 0 <= i < |lines| - 1 && IsHeading(lines[1..][i]);
        assert lines[i + 1] == lines[1..][i];
      }
    }
  }
}
