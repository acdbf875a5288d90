/**
  utils/markdownGenerator.ts: the downloadable Markdown report of an
  evaluation. `toFixed(1)` and the default conversion of a number to text
  are left uninterpreted: they are the parameters `toFixed1` and `show`.
 */
module Markdown {
  import opened Types
  import opened Strings

  /** The pieces `generateMarkdownReport` appends, one template each. */
  function Title(repoName: string): string
  {
    "# Reporte de Evaluación para: " + repoName + "\n\n"
  }

  const SummaryHeading: string := "## Resumen General\n\n"

  function OverallLine(fixed: string): string
  {
    "**Puntaje General:** " + fixed + " / 100\n"
  }

  function GradeLine(fixed: string): string
  {
    "**Nota Final (Escala Chilena):** " + fixed + "\n\n"
  }

  /** A text followed by a blank line. */
  function Paragraph(text: string): string
  {
    text + "\n\n"
  }

  const ProfessionalismHeading: string := "### Profesionalismo y Buenas Prácticas\n\n"
  const BreakdownHeading: string := "## Desglose por Criterio\n\n"

  function CriterionHeading(criterion: string): string
  {
    "### " + criterion + "\n\n"
  }

  function ItemScoreLine(shown: string): string
  {
    "**Puntaje:** " + shown + " / 100\n\n"
  }

  const FeedbackLabel: string := "**Feedback:**\n"
  const Separator: string := "---\n\n"

  /** The section of one report item. */
  function ItemSection(item: EvaluationItem, show: real -> string): string
  {
    CriterionHeading(item.criterion) + ItemScoreLine(show(item.score)) + FeedbackLabel + Paragraph(item.feedback) + Separator
  }

  /** The sections of the items, in report order. */
  function ItemsMarkdown(items: seq<EvaluationItem>, show: real -> string): string
  {
    if |items| == 0 then ""
    else ItemsMarkdown(items[..|items| - 1], show) + ItemSection(items[|items| - 1], show)
  }

  /** Everything before the first item section. */
  function Preamble(result: EvaluationResult, repoName: string, toFixed1: real -> string): string
  {
    Title(repoName) + SummaryHeading + OverallLine(toFixed1(result.overallScore)) +
    GradeLine(toFixed1(result.finalChileanGrade)) + Paragraph(result.summary) +
    ProfessionalismHeading + Paragraph(result.professionalismSummary) + BreakdownHeading
  }

  /** The whole report. */
  function ReportMarkdown(result: EvaluationResult, repoName: string, toFixed1: real -> string, show: real -> string): string
  {
    Preamble(result, repoName, toFixed1) + ItemsMarkdown(result.report, show)
  }

  lemma {:induction false} ItemsStep(items: seq<EvaluationItem>, i: nat, show: real -> string)
    requires i < |items|
    ensures ItemsMarkdown(items[..i + 1], show) == ItemsMarkdown(items[..i], show) + ItemSection(items[i], show)
  {
    assert items[..i + 1][..i] == items[..i];
  }

  /** `generateMarkdownReport` (utils/markdownGenerator.ts:9-31) */
  method GenerateMarkdownReport(result: EvaluationResult, repoName: string, toFixed1: real -> string, show: real -> string)
    returns (markdown: string)
    ensures markdown == ReportMarkdown(result, repoName, toFixed1, show)
  {
    markdown := Title(repoName);
    markdown := markdown + SummaryHeading;
    markdown := markdown + OverallLine(toFixed1(result.overallScore));
    markdown := markdown + GradeLine(toFixed1(result.finalChileanGrade));
    markdown := markdown + Paragraph(result.summary);
    markdown := markdown + ProfessionalismHeading;
    markdown := markdown + Paragraph(result.professionalismSummary);
    markdown := markdown + BreakdownHeading;
    ghost var preamble := markdown;
    assert preamble == Preamble(result, repoName, toFixed1);
    var i := 0;
    while i < |result.report|
      invariant 0 <= i <= |result.report|
      invariant markdown == preamble + ItemsMarkdown(result.report[..i], show)
    {
      var item := result.report[i];
      ghost var before := markdown;
      markdown := markdown + CriterionHeading(item.criterion);
      markdown := markdown + ItemScoreLine(show(item.score));
      markdown := markdown + FeedbackLabel;
      markdown := markdown + Paragraph(item.feedback);
      markdown := markdown + Separator;
      AppendFive(before, CriterionHeading(item.criterion), ItemScoreLine(show(item.score)), FeedbackLabel,
                 Paragraph(item.feedback), Separator);
      assert markdown == before + ItemSection(item, show);
      ItemsStep(result.report, i, show);
      AppendAssoc(preamble, ItemsMarkdown(result.report[..i], show), ItemSection(item, show));
      i := i + 1;
    }
    assert result.report[..i] == result.report;
  }

  /** The report begins with its title line for the repository. */
  lemma {:induction false} ReportStartsWithTitle(result: EvaluationResult, repoName: string, toFixed1: real -> string, show: real -> string)
    ensures StartsWith(ReportMarkdown(result, repoName, toFixed1, show), "# Reporte de Evaluación para: " + repoName + "\n\n")
  {
    var t := Title(repoName);
    var rest := SummaryHeading + OverallLine(toFixed1(result.overallScore)) +
      GradeLine(toFixed1(result.finalChileanGrade)) + Paragraph(result.summary) +
      ProfessionalismHeading + Paragraph(result.professionalismSummary) + BreakdownHeading +
      ItemsMarkdown(result.report, show);
    assert ReportMarkdown(result, repoName, toFixed1, show) == t + rest;
    StartsWithAppend(t, rest);
  }

  /** Where the general summary starts: after the title, the heading and the two score lines. */
  function SummaryOffset(result: EvaluationResult, repoName: string, toFixed1: real -> string): nat
  {
    |Title(repoName)| + |SummaryHeading| + |OverallLine(toFixed1(result.overallScore))| + |GradeLine(toFixed1(result.finalChileanGrade))|
  }

  /** Where the professionalism summary starts: after the general summary, its blank line and its heading. */
  function ProfessionalismOffset(result: EvaluationResult, repoName: string, toFixed1: real -> string): nat
  {
    SummaryOffset(result, repoName, toFixed1) + |result.summary| + 2 + |ProfessionalismHeading|
  }

  lemma {:induction false} SliceOfMiddle(a: string, m: string, b: string)
    ensures (a + m + b)[|a|..|a| + |m|] == m
  {
  }

  const BlankLine: string := "\n\n"

  lemma {:induction false} Regroup(a: string, s: string, n: string, h: string, p: string, b: string, t: string)
    ensures a + (s + n) + h + (p + n) + b + t == a + s + (n + h) + p + (n + b + t)
  {
  }

  lemma {:induction false} TwoSlices(a: string, s: string, x: string, p: string, y: string)
    ensures var r := a + s + x + p + y;
      r[|a|..|a| + |s|] == s && r[|a| + |s| + |x|..|a| + |s| + |x| + |p|] == p
  {
    SliceOfMiddle(a, s, x + p + y);
    assert a + s + x + p + y == a + s + (x + p + y);
    SliceOfMiddle(a + s + x, p, y);
  }

  /** The two summaries appear verbatim, the general one first. */
  lemma {:induction false} SummariesInOrder(result: EvaluationResult, repoName: string, toFixed1: real -> string, show: real -> string)
    ensures var r := ReportMarkdown(result, repoName, toFixed1, show);
      var i := SummaryOffset(result, repoName, toFixed1);
      var j := ProfessionalismOffset(result, repoName, toFixed1);
      i + |result.summary| < j && j + |result.professionalismSummary| <= |r| &&
      r[i..i + |result.summary|] == result.summary &&
      r[j..j + |result.professionalismSummary|] == result.professionalismSummary
  {
    var head := Title(repoName) + SummaryHeading + OverallLine(toFixed1(result.overallScore)) + GradeLine(toFixed1(result.finalChileanGrade));
    var s := result.summary;
    var p := result.professionalismSummary;
    var items := ItemsMarkdown(result.report, show);
    assert Paragraph(s) == s + BlankLine;
    assert Paragraph(p) == p + BlankLine;
    assert ReportMarkdown(result, repoName, toFixed1, show) ==
      head + (s + BlankLine) + ProfessionalismHeading + (p + BlankLine) + BreakdownHeading + items;
    Regroup(head, s, BlankLine, ProfessionalismHeading, p, BreakdownHeading, items);
    TwoSlices(head, s, BlankLine + ProfessionalismHeading, p, BlankLine + BreakdownHeading + items);
  }

  /** Each item section opens with its criterion heading, carries its score line and its feedback, and closes with the separator. */
  lemma {:induction false} ItemSectionShape(item: EvaluationItem, show: real -> string)
    ensures var sec := ItemSection(item, show);
      var h := |CriterionHeading(item.criterion)|;
      var k := h + |ItemScoreLine(show(item.score))| + |FeedbackLabel|;
      StartsWith(sec, "### " + item.criterion + "\n\n") &&
      sec[h..h + |ItemScoreLine(show(item.score))|] == "**Puntaje:** " + show(item.score) + " / 100\n\n" &&
      sec[k..k + |item.feedback|] == item.feedback &&
      EndsWith(sec, "---\n\n")
  {
    var c := CriterionHeading(item.criterion);
    var l := ItemScoreLine(show(item.score));
    var f := item.feedback;
    assert Paragraph(f) == f + BlankLine;
    assert ItemSection(item, show) == c + l + FeedbackLabel + (f + BlankLine) + Separator;
    SectionParts(c, l, FeedbackLabel, f, BlankLine, Separator);
  }

  lemma {:induction false} SectionParts(c: string, l: string, lab: string, f: string, n: string, sep: string)
    ensures var sec := c + l + lab + (f + n) + sep;
      StartsWith(sec, c) &&
      sec[|c|..|c| + |l|] == l &&
      sec[|c| + |l| + |lab|..|c| + |l| + |lab| + |f|] == f &&
      EndsWith(sec, sep)
  {
    var sec := c + l + lab + (f + n) + sep;
    assert sec == c + (l + lab + (f + n) + sep);
    StartsWithAppend(c, l + lab + (f + n) + sep);
    assert sec == c + l + (lab + (f + n) + sep);
    SliceOfMiddle(c, l, lab + (f + n) + sep);
    assert sec == (c + l + lab) + f + (n + sep);
    SliceOfMiddle(c + l + lab, f, n + sep);
    EndsWithAppend(c + l + lab + (f + n), sep);
  }

  /** The sections of two runs of items are the sections of their concatenation. */
  lemma {:induction false} ItemsMarkdownAppend(a: seq<EvaluationItem>, b: seq<EvaluationItem>, show: real -> string)
    ensures ItemsMarkdown(a + b, show) == ItemsMarkdown(a, show) + ItemsMarkdown(b, show)
  {
    if |b| == 0 {
      assert a + b == a;
    } else {
      var n := |b| - 1;
      assert (a + b)[..|a + b| - 1] == a + b[..n];
      assert (a + b)[|a + b| - 1] == b[n];
      ItemsMarkdownAppend(a, b[..n], show);
      AppendAssoc(ItemsMarkdown(a, show), ItemsMarkdown(b[..n], show), ItemSection(b[n], show));
    }
  }

  /** Where the section of item `k` begins in the items' text. */
  function SectionStart(items: seq<EvaluationItem>, k: nat, show: real -> string): nat
    requires k <= |items|
  {
    |ItemsMarkdown(items[..k], show)|
  }

  /**
    One section per item, in report order: the text between the start of
    item `k`'s section and the start of the next is exactly that item's
    section, so the text holds as many separator-terminated sections as
    the report has items.
   */
  lemma {:induction false} SectionInPlace(items: seq<EvaluationItem>, k: nat, show: real -> string)
    requires k < |items|
    ensures var t := ItemsMarkdown(items, show);
      SectionStart(items, k, show) < SectionStart(items, k + 1, show) <= |t| &&
      t[SectionStart(items, k, show)..SectionStart(items, k + 1, show)] == ItemSection(items[k], show)
  {
    var pre := ItemsMarkdown(items[..k], show);
    var sec := ItemSection(items[k], show);
    var post := ItemsMarkdown(items[k + 1..], show);
    ItemsSplitAt(items, k, show);
    ItemsStep(items, k, show);
    SliceOfMiddle(pre, sec, post);
    ItemSectionShape(items[k], show);
  }

  lemma {:induction false} ItemsSplitAt(items: seq<EvaluationItem>, k: nat, show: real -> string)
    requires k < |items|
    ensures ItemsMarkdown(items, show) ==
      ItemsMarkdown(items[..k], show) + ItemSection(items[k], show) + ItemsMarkdown(items[k + 1..], show)
  {
    ItemsStep(items, k, show);
    ItemsMarkdownSplit(items, k + 1, show);
  }

  /** The text of the items is the text of a prefix followed by the text of the rest. */
  lemma {:induction false} ItemsMarkdownSplit(items: seq<EvaluationItem>, j: nat, show: real -> string)
    requires j <= |items|
    ensures ItemsMarkdown(items, show) == ItemsMarkdown(items[..j], show) + ItemsMarkdown(items[j..], show)
  {
    assert items == items[..j] + items[j..];
    ItemsMarkdownAppend(items[..j], items[j..], show);
  }

  /** The last section of the items' text is the last item's, closed by the separator. */
  lemma {:induction false} ItemsEndWithSeparator(items: seq<EvaluationItem>, show: real -> string)
    requires |items| > 0
    ensures EndsWith(ItemsMarkdown(items, show), Separator)
  {
    var n := |items| - 1;
    var pre := ItemsMarkdown(items[..n], show);
    var sec := ItemSection(items[n], show);
    ItemSectionShape(items[n], show);
    assert ItemsMarkdown(items, show) == pre + sec;
    EndsWithPrepend(pre, sec, Separator);
  }

  /** With no report items the report is the preamble, which ends with the breakdown heading. */
  lemma {:induction false} EmptyReportEndsWithBreakdown(result: EvaluationResult, repoName: string, toFixed1: real -> string, show: real -> string)
    requires |result.report| == 0
    ensures ReportMarkdown(result, repoName, toFixed1, show) == Preamble(result, repoName, toFixed1)
    ensures EndsWith(ReportMarkdown(result, repoName, toFixed1, show), "## Desglose por Criterio\n\n")
  {
    var r := ReportMarkdown(result, repoName, toFixed1, show);
    var front := Title(repoName) + SummaryHeading + OverallLine(toFixed1(result.overallScore)) +
      GradeLine(toFixed1(result.finalChileanGrade)) + Paragraph(result.summary) +
      ProfessionalismHeading + Paragraph(result.professionalismSummary);
    assert r == front + BreakdownHeading;
    EndsWithAppend(front, BreakdownHeading);
  }

  /** With items, the report ends with the last item's separator. */
  lemma {:induction false} ReportEndsWithSeparator(result: EvaluationResult, repoName: string, toFixed1: real -> string, show: real -> string)
    requires |result.report| > 0
    ensures EndsWith(ReportMarkdown(result, repoName, toFixed1, show), "---\n\n")
  {
    var p := Preamble(result, repoName, toFixed1);
    var t := ItemsMarkdown(result.report, show);
    ItemsEndWithSeparator(result.report, show);
    EndsWithPrepend(p, t, Separator);
  }
}
