/**
  utils/notebookParser.ts: turning the JSON of a Jupyter notebook into
  readable text, one numbered block per markdown or code cell. `JSON.parse`
  is not modelled: the formatter receives what it makes of the raw text as a
  `NotebookJson` value.
 */
module Notebook {
  import opened Types
  import opened Strings

  /** How every failure text of the formatter begins. */
  const ErrorTag: string := "Error:"

  /** What is put before the raw text when the value has no `cells` array. */
  const InvalidFormatPrefix: string :=
    ErrorTag + " Formato de notebook inválido (no se encontró el arreglo 'cells').\n\n"

  /** What is put before the raw text when the JSON does not parse. */
  const ParseErrorPrefix: string :=
    ErrorTag + " No se pudo parsear el JSON del notebook. Mostrando contenido en crudo.\n\n"

  /** The text of a cell: an array of lines joined with no separator, anything else as `String(value)`. */
  function SourceText(src: CellSource): string
  {
    match src
    case Lines(parts) => Join(parts, "")
    case Other(text) => text
  }

  /** Joining with no separator keeps every character of every line, in order. */
  lemma {:induction false} SourceLinesConcatenate(parts: seq<string>, line: string)
    ensures SourceText(Lines(parts + [line])) == SourceText(Lines(parts)) + line
  {
    if |parts| == 0 {
      assert parts + [line] == [line];
    } else if |parts| == 1 {
      var two := [parts[0], line];
      assert parts + [line] == two;
      assert two[1..] == [line];
      assert Join(two, "") == parts[0] + "" + Join([line], "");
      assert parts[0] + "" == parts[0];
    } else {
      assert (parts + [line])[1..] == parts[1..] + [line];
      SourceLinesConcatenate(parts[1..], line);
      AppendAssoc(parts[0], Join(parts[1..], ""), line);
    }
  }

  function MarkdownOpen(n: nat): string
  {
    "\n--- Celda de Markdown " + NatToString(n) + " ---\n"
  }

  function MarkdownClose(n: nat): string
  {
    "\n--- Fin Celda de Markdown " + NatToString(n) + " ---\n"
  }

  function CodeOpen(n: nat): string
  {
    "\n--- Celda de Código " + NatToString(n) + " ---\n"
  }

  function CodeClose(n: nat): string
  {
    "\n--- Fin Celda de Código " + NatToString(n) + " ---\n"
  }

  const PythonFence: string := "```python\n"
  const FenceEnd: string := "\n```"

  /**
    The text emitted for the cell at `index`: markdown between numbered
    markdown markers, code inside a python fence between numbered code
    markers, nothing for any other cell type. Numbers count from 1.
   */
  function CellBlock(cell: NotebookCell, index: nat): string
  {
    if cell.cellType == "markdown" then MarkdownBlock(index + 1, SourceText(cell.source))
    else if cell.cellType == "code" then CodeBlock(index + 1, SourceText(cell.source))
    else ""
  }

  function MarkdownBlock(n: nat, source: string): string
  {
    MarkdownOpen(n) + source + MarkdownClose(n)
  }

  function CodeBlock(n: nat, source: string): string
  {
    CodeOpen(n) + PythonFence + source + FenceEnd + CodeClose(n)
  }

  /** The blocks of all the cells, in cell order, each numbered by its position in the whole list. */
  function CellsText(cells: seq<NotebookCell>): string
  {
    if |cells| == 0 then ""
    else CellsText(cells[..|cells| - 1]) + CellBlock(cells[|cells| - 1], |cells| - 1)
  }

  /** The text of the first `k` cells is a prefix of the text of all of them. */
  lemma {:induction false} CellsTextPrefix(cells: seq<NotebookCell>, k: nat)
    requires k <= |cells|
    ensures StartsWith(CellsText(cells), CellsText(cells[..k]))
  {
    if k < |cells| {
      var n := |cells| - 1;
      assert cells[..n][..k] == cells[..k];
      CellsTextPrefix(cells[..n], k);
      CellsTextStep(cells, n);
      assert cells[..n + 1] == cells;
      StartsWithExtend(CellsText(cells[..n]), CellsText(cells[..k]), CellBlock(cells[n], n));
    } else {
      assert cells[..k] == cells;
    }
  }

  /**
    The block of the cell at `i` comes right after the blocks of the cells
    before it, so every included cell appears in place and in order.
   */
  lemma {:induction false} CellBlockInPlace(cells: seq<NotebookCell>, i: nat)
    requires i < |cells|
    ensures StartsWith(CellsText(cells), CellsText(cells[..i]) + CellBlock(cells[i], i))
  {
    CellsTextPrefix(cells, i + 1);
    assert cells[..i + 1][..i] == cells[..i];
  }

  /** Cells that are neither markdown nor code add nothing; the numbers of the others still count them. */
  lemma {:induction false} SkippedCellsEmitNothing(cells: seq<NotebookCell>)
    requires forall i :: 0 <= i < |cells| ==> cells[i].cellType != "markdown" && cells[i].cellType != "code"
    ensures CellsText(cells) == ""
  {
    if |cells| > 0 {
      SkippedCellsEmitNothing(cells[..|cells| - 1]);
    }
  }

  /** A raw cell before a markdown cell leaves a gap: the markdown cell is numbered 2. */
  lemma {:induction false} NumberingKeepsGaps(raw: NotebookCell, text: string)
    requires raw.cellType == "raw"
    ensures CellsText([raw, NotebookCell("markdown", Other(text))]) == MarkdownOpen(2) + text + MarkdownClose(2)
  {
    var md := NotebookCell("markdown", Other(text));
    var cells := [raw, md];
    assert cells[..1] == [raw];
    assert [raw][..0] == [];
    assert CellsText([raw]) == "" + CellBlock(raw, 0) == "";
    assert CellsText(cells) == CellsText([raw]) + CellBlock(md, 1);
  }

  /** The markers of different cells differ. */
  lemma {:induction false} MarkdownOpenInjective(m: nat, n: nat)
    requires MarkdownOpen(m) == MarkdownOpen(n)
    ensures m == n
  {
    var a := "\n--- Celda de Markdown ";
    var s := MarkdownOpen(m);
    assert NatToString(m) == s[|a|..|s| - 5];
    assert NatToString(n) == s[|a|..|s| - 5];
    NatToStringInjective(m, n);
  }

  lemma {:induction false} CellsTextStep(cells: seq<NotebookCell>, i: nat)
    requires i < |cells|
    ensures CellsText(cells[..i + 1]) == CellsText(cells[..i]) + CellBlock(cells[i], i)
  {
    assert cells[..i + 1][..i] == cells[..i];
  }

  /** The cell loop of `parseAndFormatNotebook` (utils/notebookParser.ts:24-40), one append at a time. */
  method FormatCells(cells: seq<NotebookCell>) returns (formattedContent: string)
    ensures formattedContent == CellsText(cells)
  {
    formattedContent := "";
    var index := 0;
    while index < |cells|
      invariant 0 <= index <= |cells|
      invariant formattedContent == CellsText(cells[..index])
    {
      var cell := cells[index];
      var source := SourceText(cell.source);
      ghost var before := formattedContent;
      if cell.cellType == "markdown" {
        formattedContent := formattedContent + MarkdownOpen(index + 1);
        formattedContent := formattedContent + source;
        formattedContent := formattedContent + MarkdownClose(index + 1);
        AppendThree(before, MarkdownOpen(index + 1), source, MarkdownClose(index + 1));
        assert formattedContent == before + MarkdownBlock(index + 1, source);
      } else if cell.cellType == "code" {
        formattedContent := formattedContent + CodeOpen(index + 1);
        formattedContent := formattedContent + PythonFence;
        formattedContent := formattedContent + source;
        formattedContent := formattedContent + FenceEnd;
        formattedContent := formattedContent + CodeClose(index + 1);
        AppendFive(before, CodeOpen(index + 1), PythonFence, source, FenceEnd, CodeClose(index + 1));
        assert formattedContent == before + CodeBlock(index + 1, source);
      } else {
        assert before + "" == before;
      }
      CellsTextStep(cells, index);
      index := index + 1;
    }
    assert cells[..index] == cells;
  }

  /** What the formatter makes of a value that `JSON.parse` produced, or failed to produce, from `raw`. */
  function FormatParsed(raw: string, parsed: NotebookJson): string
  {
    match parsed
    case ParseFail => ParseErrorPrefix + raw
    case NoCells => InvalidFormatPrefix + raw
    case Cells(cells) => CellsText(cells)
  }

  /** The brace guard: the trimmed text must start with `{` and end with `}`. */
  predicate PassesBraceGuard(raw: string)
  {
    var t := Trim(raw);
    StartsWith(t, "{") && EndsWith(t, "}")
  }

  /** `parseAndFormatNotebook` of utils/notebookParser.ts, on the result of parsing `raw`. */
  function NotebookText(raw: string, parsed: NotebookJson): (r: string)
    ensures !PassesBraceGuard(raw) ==> r == raw
    ensures PassesBraceGuard(raw) && parsed.Cells? ==> r == CellsText(parsed.cells)
    ensures PassesBraceGuard(raw) && !parsed.Cells? ==> StartsWith(r, ErrorTag) && EndsWith(r, raw)
  {
    FailuresStartWithError(raw);
    EndsWithAppend(ParseErrorPrefix, raw);
    EndsWithAppend(InvalidFormatPrefix, raw);
    if PassesBraceGuard(raw) then FormatParsed(raw, parsed) else raw
  }

  /** utils/notebookParser.ts:9-46 */
  method ParseAndFormatNotebook(rawContent: string, parsed: NotebookJson) returns (r: string)
    ensures !PassesBraceGuard(rawContent) ==> r == rawContent
    ensures PassesBraceGuard(rawContent) && parsed == ParseFail ==> r == ParseErrorPrefix + rawContent
    ensures PassesBraceGuard(rawContent) && parsed == NoCells ==> r == InvalidFormatPrefix + rawContent
    ensures PassesBraceGuard(rawContent) && parsed.Cells? ==> r == CellsText(parsed.cells)
  {
    var trimmedContent := Trim(rawContent);
    if !StartsWith(trimmedContent, "{") || !EndsWith(trimmedContent, "}") {
      return rawContent;
    }
    match parsed
    case ParseFail =>
      r := ParseErrorPrefix + rawContent;
    case NoCells =>
      r := InvalidFormatPrefix + rawContent;
    case Cells(cells) =>
      r := FormatCells(cells);
  }

  /** Leading white space does not change the guard's verdict. */
  lemma {:induction false} GuardIgnoresLeadingSpace(c: char, raw: string)
    requires IsJsSpace(c)
    ensures PassesBraceGuard([c] + raw) == PassesBraceGuard(raw)
  {
    TrimSkipsSpace(c, raw);
  }

  /** Text that does not start with `{` after its whitespace, such as Python source, is returned unchanged. */
  lemma {:induction false} NonObjectKeptRaw(raw: string, parsed: NotebookJson)
    requires |Trim(raw)| > 0 && Trim(raw)[0] != '{'
    ensures NotebookText(raw, parsed) == raw
  {
    var t := Trim(raw);
    assert t[..1][0] != "{"[0];
  }

  /** Both failure texts start with `Error:`, which is what the GitHub source later drops. */
  lemma {:induction false} FailuresStartWithError(raw: string)
    ensures StartsWith(FormatParsed(raw, ParseFail), ErrorTag)
    ensures StartsWith(FormatParsed(raw, NoCells), ErrorTag)
  {
    StartsWithAppend(ErrorTag, " No se pudo parsear el JSON del notebook. Mostrando contenido en crudo.\n\n" + raw);
    StartsWithAppend(ErrorTag, " Formato de notebook inválido (no se encontró el arreglo 'cells').\n\n" + raw);
  }
}
