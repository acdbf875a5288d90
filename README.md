# Teaching assistant for code review — a Dafny model of its deterministic core

The application evaluates a student's project against a rubric with a
language model. Everything around the model call is ordinary string and
number handling:

- finding the project's files, either from a GitHub URL (jsDelivr listing
  and file services) or from an uploaded ZIP archive;
- normalising Jupyter notebooks into readable text;
- packing the files into one prompt under a character budget;
- extracting the rubric's criteria;
- turning 0–100 scores into Chilean grades (1.0–7.0) and colour bands;
- writing the Markdown report;
- clamping a score a teacher types in.

This project models that core in Dafny and proves what the code promises.
There is one module per source file. Two shared modules support them:

- `Strings` gives the JavaScript string operations the code uses: `split`,
  `join`, `trim`, `startsWith`, `endsWith`, filtering out empty strings, and
  `.length` counted in UTF-16 code units.
- `Types` mirrors the record shapes of `types.ts`, plus the `Option` and
  `Result` values the services hand back.

Code that works step by step is modelled as Dafny methods with loops, each
proved equal to a specification function. That covers:

- the prompt loop of `formatFilesForPrompt`;
- the branch probe of `getRepoContents`;
- the cell loop of the notebook formatter (`Notebook.FormatCells`), which the
  older copy in the GitHub service shares;
- the entry loop of the ZIP reader;
- the `+=` accumulation of the Markdown report.

The properties are then proved about those functions. Pure code (URL
parsing, grading, colours, rubric parsing, the score clamp) is modelled as
functions and lemmas.

Everything the code gets from outside becomes an input:

- `new URL(url)` is a `UrlParts` value, or `None` when it throws.
- The jsDelivr listing is a function from a branch to a `ListResponse`, and
  the file service is a function from a branch and a path to a
  `ContentResponse`.
- `JSON.parse` of a notebook is a function to `NotebookJson`: `ParseFail`,
  `NoCells` or `Cells(...)`.
- A ZIP archive is `None` when it cannot be opened, or else its entries in
  enumeration order, each with the text its read produced or `None` when the
  read failed.
- `toFixed(1)` and the default conversion of a number to text are
  uninterpreted function parameters.

In these places the code does something its comments or names might not
suggest, and the model follows the code:

- `getRepoContents` returns no security warning, so the GitHub result has
  `envFileWarning == None`. `handleAnalyze` then prepends nothing.
- In `getRepoContents`, `ref` is assigned before the listing's JSON is read.
  When a listing is ok but its body is unreadable, the `catch` only warns, so
  the probe moves on to the next candidate with `ref` already set. That value
  is then overwritten or never used, so nothing observable changes. The model
  keeps that order (`GitHub.ProbeDefaultBranch`).
- The rubric regular expression `/^##\s.*$/gm` is modelled as ECMAScript
  runs it. `\s` also matches a line terminator, so a line that is exactly
  `##` swallows the line after it (`Rubric.BareHeadingSwallowsNextLine`).
  The line-by-line reading of the rule is a separate reference definition,
  `HeadingTitles`. `Rubric.CriteriaAreHeadingTitles` proves the two agree
  whenever no line other than the last is exactly `##`.
- The ZIP reader checks for `.env` only after its extension filter, so a
  `.env` entry is flagged only when some relevant extension is a suffix of
  its name. The ZIP reader imports its list from a constants file that does
  not define it, so the list is a parameter. With the GitHub source's list
  the warning is never raised, for any archive (`Zip.NoWarningWithGitHubList`).

## Model

| member | source | states |
|---|---|---|
| Prompt.FormatFilesForPrompt | App.tsx:24-48 | The greedy loop with its early `break` produces exactly `FormattedPrompt(files)`: the header listing every path, then the blocks of the longest prefix of files that fits the budget, then the truncation note if any file was left out. |
| Prompt.FitCountOfPrefix | App.tsx:31-45 | A prefix that fits the budget, where the next block would not fit or no file is left, is exactly the prefix the greedy loop takes. |
| Prompt.FitCountWithinBudget | App.tsx:39-44 | Starting from any budget already spent, the blocks the loop takes keep the running count within `MAX_PROMPT_CHARS`. |
| Prompt.IncludedWithinBudget | App.tsx:13 | The summed length of the included blocks never exceeds 100000. |
| Prompt.FitCountIsGreedy | App.tsx:31-45 | Every included file fitted when its turn came, and the first file left out did not fit: the included files are a prefix, in input order, with nothing skipped. |
| Prompt.TruncatedIffOverBudget | App.tsx:39-42 | Some file is left out exactly when the blocks of all the files together exceed the budget. |
| Prompt.PromptShape | App.tsx:29-47 | When all blocks fit, the prompt is the header and every block with no note. Otherwise it is the header, the blocks of a proper prefix and the note, exactly once. |
| Prompt.StopAt | App.tsx:39-42 | A loop that stops at a block that does not fit yields the header, the blocks before it and the note. |
| Prompt.TookAll | App.tsx:31-45 | A loop that takes every block yields the header and all the blocks, with no note. |
| Prompt.TakeOneMore | App.tsx:43-44 | Appending a block that fits advances the running count by its length and the content by that block. |
| Prompt.FirstBlockTooLarge | App.tsx:39-41 | When the first block alone exceeds the budget, the prompt is the header followed by the note, with no file content. |
| Prompt.HeaderListsEveryPath | App.tsx:27-29 | The header's path list, split at newlines, gives back every path in order, the truncated files' paths included. |
| Prompt.BlockLengthOfBmp | App.tsx:32-39 | For text in the Basic Multilingual Plane, the `.length` of a block is its number of characters. |
| Prompt.BlockLengthBounds | App.tsx:32-39 | A block's `.length` is at least its number of characters, which is at least the 56 characters of its template. |
| Prompt.HandleAnalyze | App.tsx:50-84 | An empty URL is refused before anything is fetched. A fetch error is reported with its message, or the generic message when that is empty. An empty file list is refused before evaluation. Otherwise the context is the formatted prompt, with a non-empty warning prepended verbatim. |
| GitHub.ParseRepoUrl | services/githubService.ts:8-38 | A URL is parsed only when it is on `github.com` and has at least two non-empty segments. The owner is a non-empty segment without `/`, and with no branch the path is empty. |
| GitHub.ParseRepoUrlRefuses | services/githubService.ts:8-14 | The URL is refused exactly when it does not parse, its host is not `github.com`, or it has fewer than two non-empty path segments. |
| GitHub.ParseRepoUrlFields | services/githubService.ts:16-33 | The owner is the first segment and the repo is the second with one `.git` removed. A branch is set exactly when some `tree`/`blob` segment has a segment after it; then it is the segment after the first marker and the path is the rest joined by `/`. Otherwise the path is empty. |
| GitHub.BranchMarkerFound | services/githubService.ts:26-28 | Testing only the first `tree`/`blob` marker is the same as asking whether any marker has a segment after it. |
| GitHub.ParseTreeUrl | services/githubService.ts:8-33 | `https://github.com/o/r.git/tree/b/x/y` parses to owner `o`, repo `r`, branch `b`, path `x/y`. |
| GitHub.PathParts | services/githubService.ts:13 | Every part of `split('/').filter(p => p)` is non-empty and holds no `/`. |
| GitHub.PathPartsOfSegments | services/githubService.ts:13 | Splitting at `/` and dropping empty parts gives back the non-empty segments a path was built from. |
| Strings.DropSuffix | services/githubService.ts:19-21 | One trailing `.git` is removed from the repository name (and one `.zip` from the archive name, services/zipService.ts:18); a name without the suffix is unchanged. |
| Strings.DropSuffixOnce | services/zipService.ts:18 | Only one copy of the suffix is removed: `name.zip` gives `name`, and `r.git.git` keeps one `.git`. |
| GitHub.TypeIndex | services/githubService.ts:26 | The result is the index of the first `tree` or `blob` segment, or -1 exactly when there is none. |
| GitHub.FirstListedIsFirst | services/githubService.ts:82-105 | The chosen branch is a candidate whose listing is ok, and every candidate before it failed, non-ok or thrown. Nothing is chosen only when every candidate failed. |
| GitHub.MainFailsMasterListed | services/githubService.ts:83-101 | When `main` fails and `master` is listed, the branch is `master`. |
| GitHub.ProbeDefaultBranch | services/githubService.ts:82-101 | The probing loop finds a branch exactly when the first-success rule selects one, and then holds that branch and its listing. |
| GitHub.ResolveListing | services/githubService.ts:77-116 | Probing or listing the named branch gives the branch and file names of `ListingOf`, or the error for no default branch or a non-ok listing. |
| GitHub.Selected | services/githubService.ts:121-132 | Every selected file ends with a relevant extension. When a path is given, each file equals the path or lies under it. |
| GitHub.SelectedMembers | services/githubService.ts:123-132 | A file is selected exactly when some listed name in scope gives it once its leading `/` is removed, and it is relevant. |
| GitHub.SelectedAppend | services/githubService.ts:125-132 | Selection keeps listing order: it distributes over concatenated listings. |
| GitHub.DropSlashUnderPath | services/githubService.ts:124-129 | A name in scope, once its `/` is removed, is the path or lies under `path/`. |
| GitHub.DropSlashInScope | services/githubService.ts:123-129 | With or without a path, a selected name keeps the scope the path gives it. |
| GitHub.ParseAndFormatNotebook | services/githubService.ts:40-68 | The older formatter gives the shared formatting of parsed JSON. On every text that passes the newer brace guard, its output equals that of utils/notebookParser.ts. |
| GitHub.FetchAll | services/githubService.ts:140-161 | There is one fetched file per selected path, in order, each built from what the file service answered for that path. |
| GitHub.DropErrors | services/githubService.ts:162 | What remains is exactly the files whose content does not start with `Error:`. |
| GitHub.FailedFilesDropped | services/githubService.ts:140-157 | A failed fetch, and a notebook whose JSON does not parse or has no `cells`, gives content starting with `Error:`. |
| GitHub.GetRepoContents | services/githubService.ts:70-164 | The method, with its early errors, computes `RepoContentsOf` for what the services answer. |
| GitHub.InvalidUrlRefused | services/githubService.ts:71-75 | A URL that does not parse is refused with the invalid-URL error, whatever the services would answer. |
| GitHub.EmptySelectionFailsBeforeFetching | services/githubService.ts:134-137 | An empty selection gives the "no relevant files" error, and the result does not depend on the file service: no content is fetched. |
| GitHub.FetchedFilesReturned | services/githubService.ts:118-163 | A successful result from a listing names the parsed repo and has no warning. Every file it returns was selected, is relevant, and has content that does not start with `Error:`. |
| GitHub.ReturnedFiles | services/githubService.ts:70-164 | The same for the whole operation from the URL: repo name, no warning, only selected, relevant and error-free files. |
| Notebook.ParseAndFormatNotebook | utils/notebookParser.ts:9-46 | Text failing the brace guard is returned unchanged. Otherwise a parse failure and missing `cells` give their fixed prefix followed by the raw text, and cells give the concatenated cell blocks. |
| Notebook.NotebookText | utils/notebookParser.ts:9-46 | Text failing the brace guard is returned as it is. Parsed cells give their blocks. Both failures start with `Error:` and end with the raw text. |
| Notebook.FormatCells | utils/notebookParser.ts:24-40 | The cell loop appends exactly the blocks of the cells, in order, to the empty string. |
| Notebook.CellBlockInPlace | utils/notebookParser.ts:25-38 | The block of cell `i` comes right after the blocks of the cells before it. |
| Notebook.CellsTextPrefix | utils/notebookParser.ts:25-39 | The text of a prefix of the cells is a prefix of the text of all of them. |
| Notebook.CellsTextStep | utils/notebookParser.ts:25-38 | One more cell appends exactly its block. |
| Notebook.SkippedCellsEmitNothing | utils/notebookParser.ts:28-38 | Cells that are neither markdown nor code emit nothing. |
| Notebook.NumberingKeepsGaps | utils/notebookParser.ts:25-31 | Numbering uses the original index: a markdown cell after a raw cell is numbered 2. |
| Notebook.MarkdownOpenInjective | utils/notebookParser.ts:29 | Markers of different cells differ. |
| Notebook.SourceLinesConcatenate | utils/notebookParser.ts:26 | An array `source` is joined with no separator, keeping every line in order. |
| Notebook.GuardIgnoresLeadingSpace | utils/notebookParser.ts:10-12 | Leading white space does not change the brace guard's verdict. |
| Notebook.NonObjectKeptRaw | utils/notebookParser.ts:10-16 | Text whose trimmed form does not start with `{` is returned unchanged. |
| Notebook.FailuresStartWithError | utils/notebookParser.ts:18-45 | Both failure texts start with `Error:`. |
| Zip.ExtractFilesFromZip | services/zipService.ts:10-53 | An archive that cannot be opened gives only the invalid-ZIP error. Otherwise the result holds the kept files whose reads succeeded, the archive name without `.zip`, and the warning the loop leaves. |
| Zip.ZipFilesMembers | services/zipService.ts:20-45 | A file is returned exactly when some non-directory, relevant entry was read successfully, with that entry's name and text. Failed reads leave nothing. |
| Zip.ZipFilesAppend | services/zipService.ts:20-45 | Files come in enumeration order: the result distributes over concatenated entries. |
| Zip.ReadsAppend | services/zipService.ts:20-42 | The pending reads distribute over concatenated entries. |
| Zip.ReadsStep | services/zipService.ts:22-41 | One more entry adds one read when it is kept, and may set the `.env` flag only when it is kept. |
| Zip.Present | services/zipService.ts:45 | The null filter keeps exactly the successful reads. |
| Zip.PresentAppend | services/zipService.ts:45 | The null filter distributes over concatenation. |
| Zip.WarningIffRootEnv | services/zipService.ts:28-31 | The warning is non-empty exactly when some kept entry is a `.env` at depth at most two, and it is then the one fixed text. |
| Zip.TopLevelEnvFlagged | services/zipService.ts:22-31 | A `.env` entry at the top of the archive that passes the directory-and-extension filter raises the warning. |
| Zip.FolderEnvFlagged | services/zipService.ts:22-31 | A `folder/.env` entry that passes the directory-and-extension filter raises the warning. |
| Zip.RootEnvEndsWithEnv | services/zipService.ts:28-29 | A name that passes the depth-and-basename test ends with `.env`. |
| Zip.EnvNeverKept | services/zipService.ts:22-24 | With the GitHub source's extension list, the filter drops every entry whose name ends with `.env`. |
| Zip.NoWarningWithGitHubList | services/zipService.ts:22-31 | With the GitHub source's extension list, the warning is empty for every archive. |
| Zip.NestedEnvNotFlagged | services/zipService.ts:28-29 | `a/b/.env` fails the depth-and-basename test, so it never raises the warning. |
| Zip.EnvHasNoSlash | services/zipService.ts:28 | `.env` splits into one part. |
| Grading.CalculateChileanGrade | utils/gradingScales.ts:11-40 | The grade lies in [1.0, 7.0] and is a whole number of tenths. |
| Grading.ClampScore | utils/gradingScales.ts:12 | The clamped score lies in [0, 100], and a score already in range is kept. |
| Grading.RawGrade | utils/gradingScales.ts:14-35 | For a score in [0, 100] the grade before clamping lies in [1, 7]. With scale 50 or 60 it is below 4.0 exactly when the score is below the approval score. |
| Grading.RoundBounds | utils/gradingScales.ts:38-39 | Rounding a grade in [1, 7] to tenths stays in [1, 7] and gives whole tenths. |
| Grading.OutOfRangeScores | utils/gradingScales.ts:12 | Scores below 0 grade like 0, and scores above 100 like 100. |
| Grading.ProportionalScale | utils/gradingScales.ts:16-18 | With scale 0 the grade is `1 + 0.06·score` rounded to tenths. |
| Grading.ScaleAnchors | utils/gradingScales.ts:14-39 | Score 0 gives 1.0 and 100 gives 7.0; with scale 50 or 60 the approval score gives 4.0. |
| Grading.Scale60Score80 | utils/gradingScales.ts:24-39 | Scale 60 and score 80 give 5.5. |
| Grading.RawGradeMonotone | utils/gradingScales.ts:14-35 | The piecewise-linear grade never decreases on [0, 100]. |
| Grading.RoundMonotone | utils/gradingScales.ts:39 | Rounding to tenths is monotone. |
| Grading.GradeMonotone | utils/gradingScales.ts:12-39 | For a fixed scale a higher score never gives a lower grade. |
| Rubric.GetCriteriaFromRubric | utils/rubricParser.ts:10-26 | Empty text gives no criteria, and there is one criterion per match of the regular expression. |
| Rubric.CriteriaAreHeadingTitles | utils/rubricParser.ts:17-25 | Unless a line other than the last is exactly `##`, the criteria are the heading lines in text order, each with `##` and the white space after it removed, then trimmed. |
| Rubric.Scan | utils/rubricParser.ts:17-18 | Every match of `/^##\s.*$/gm` is `##`, one white space character, then the rest of a line with no line terminator. |
| Rubric.ScanIsHeadingLines | utils/rubricParser.ts:17-18 | Under the same condition, the regular expression matches exactly the heading lines, in order. |
| Rubric.BareHeadingSwallowsNextLine | utils/rubricParser.ts:17 | A line that is exactly `##` followed by a line terminator matches together with the next line. |
| Rubric.NotHeadings | utils/rubricParser.ts:17 | Lines starting with `###`, with a single `#`, or with `##` not followed by white space are not criteria. |
| Rubric.ValidateRubric | hooks/useEvaluation.ts:25-28 | A rubric is refused, with the fixed message, exactly when the regular expression matches nowhere in it. |
| Rubric.AcceptedIffHeading | hooks/useEvaluation.ts:25-28 | The rubric check accepts a rubric exactly when some line is a heading, under the same condition. |
| Rubric.HeadingLinesNonEmpty | utils/rubricParser.ts:20-22 | There is no criterion exactly when there is no heading line. |
| Rubric.HeadingLinesOf | utils/rubricParser.ts:17 | Every selected line is a heading line. |
| Rubric.ScanMatchesLong | utils/rubricParser.ts:17 | Every match holds at least `##` and one white space character. |
| Rubric.CriteriaLength | utils/rubricParser.ts:25 | Cleaning the matches keeps one criterion per match. |
| Rubric.CriteriaOfHeadingLines | utils/rubricParser.ts:25 | Cleaning the heading lines gives the heading titles. |
| Rubric.HeadingTitlesAppend | utils/rubricParser.ts:25 | The titles of concatenated lines are the concatenated titles. |
| Rubric.LineLength | utils/rubricParser.ts:17 | `.*` reaches exactly up to the first line terminator. |
| Rubric.LineTerminatorIsSpace | utils/rubricParser.ts:17 | Every line terminator is matched by `\s`. |
| Rubric.ScanSkipsLine | utils/rubricParser.ts:17 | Away from a line start, nothing matches before the next line terminator. |
| Rubric.ScanLine | utils/rubricParser.ts:17 | A line read from its start contributes itself exactly when it is a heading. |
| Rubric.ScanLastLine | utils/rubricParser.ts:17 | The same for the last line. |
| Rubric.SplitLines | utils/rubricParser.ts:17 | A text has at least one line. |
| Rubric.SplitLinesAround | utils/rubricParser.ts:17 | A line terminator separates one line from the lines after it. |
| Colors.GetScoreColorStyles | utils/colors.ts:6-11 | The result is one of the four fixed background/text pairs. |
| Colors.GetScoreColorClass | utils/colors.ts:18-23 | The result is one of the four fixed text classes. |
| Colors.GetScoreHexColor | utils/colors.ts:30-35 | The result is one of the four fixed hex colours. |
| Colors.Level | utils/colors.ts:6-35 | A score reaches between 0 and 3 of the thresholds. |
| Colors.ColorsFollowLevel | utils/colors.ts:6-35 | Each function picks the entry of its scale given by the number of thresholds reached. |
| Colors.Bands | utils/colors.ts:7-10 | The thresholds are inclusive: 80 and up is green, 60 yellow, 40 orange, and everything below 40, negatives included, red. |
| Colors.ScalesDistinct | utils/colors.ts:6-35 | Each scale has four different values, so a value names its band. |
| Colors.SameBand | utils/colors.ts:6-35 | All three functions put every score in the same band. |
| Colors.BandMonotone | utils/colors.ts:6-35 | Raising a score never moves it to a lower band, in any of the three functions. |
| Markdown.GenerateMarkdownReport | utils/markdownGenerator.ts:9-31 | The `+=` accumulation produces exactly the report: the preamble, then one section per item in report order. |
| Markdown.ReportStartsWithTitle | utils/markdownGenerator.ts:10 | The report begins with `# Reporte de Evaluación para: ` + repoName + a blank line. |
| Markdown.SummariesInOrder | utils/markdownGenerator.ts:15-18 | The general summary and the professionalism summary appear verbatim at their offsets, the general one first. |
| Markdown.ItemSectionShape | utils/markdownGenerator.ts:23-27 | Each section opens with `### criterion` and holds its score line and its feedback at their offsets; it ends with `---\n\n`. |
| Markdown.SectionInPlace | utils/markdownGenerator.ts:22-28 | The text between the start of item `k`'s section and the next is exactly that item's section: one section, and one separator, per item, in order. |
| Markdown.ItemsSplitAt | utils/markdownGenerator.ts:22-28 | The items' text is the sections before item `k`, its section, then the sections after it. |
| Markdown.ItemsMarkdownSplit | utils/markdownGenerator.ts:22-28 | The items' text splits at any item into the text of the prefix and of the rest. |
| Markdown.ItemsMarkdownAppend | utils/markdownGenerator.ts:22-28 | The sections of concatenated items are the concatenated sections. |
| Markdown.ItemsStep | utils/markdownGenerator.ts:22-28 | One more item appends exactly its section. |
| Markdown.ItemsEndWithSeparator | utils/markdownGenerator.ts:27 | When there is an item, the items' text ends with the separator. |
| Markdown.EmptyReportEndsWithBreakdown | utils/markdownGenerator.ts:20-30 | With no items the report is the preamble and ends with `## Desglose por Criterio\n\n`. |
| Markdown.ReportEndsWithSeparator | utils/markdownGenerator.ts:22-30 | With items, the report ends with `---\n\n`. |
| RubricItem.HandleScoreInputChange | components/RubricItem.tsx:17-23 | The emitted score lies in [0, 100], and input that does not read as a number gives 0. |
| RubricItem.Clamp | components/RubricItem.tsx:19-21 | NaN gives 0; an in-range value is kept; above 100 gives 100; below 0 gives 0. |
| RubricItem.ClampIdempotent | components/RubricItem.tsx:21 | Clamping a clamped score changes nothing. |
| RubricItem.HandleIdempotent | components/RubricItem.tsx:17-23 | Typing back the emitted score emits the same score. |
| RubricItem.InRangeInputKept | components/RubricItem.tsx:18-21 | A whole number from 0 to 100 typed in is emitted unchanged. |
| RubricItem.OutOfRangeInput | components/RubricItem.tsx:18-21 | A number above 100 becomes 100, and a negative one 0. |
| RubricItem.NonNumericInputIsZero | components/RubricItem.tsx:18-19 | Text with no digit after the optional sign, such as an empty field, gives 0. |
| RubricItem.ParseInt | components/RubricItem.tsx:18 | `parseInt(value, 10)` gives a number only when the text holds a digit. |
| RubricItem.ParseSigned | components/RubricItem.tsx:18 | A number is read only when the text starts with a digit, or with one sign followed by a digit. |
| RubricItem.ReadDigits | components/RubricItem.tsx:18 | Digits are read exactly when the text starts with a digit. |
| RubricItem.ParseIntOfNat | components/RubricItem.tsx:18 | `parseInt` reads the decimal text of a number, followed by a non-digit or nothing, back as that number. |
| RubricItem.ParseIntOfNegative | components/RubricItem.tsx:18 | A `-` sign gives the negated number. |
| RubricItem.ParseIntOfPlus | components/RubricItem.tsx:18 | A `+` sign gives the number. |
| RubricItem.ParseIntSkipsSpace | components/RubricItem.tsx:18 | Leading white space does not change what is read. |
| RubricItem.DigitsReadBack | components/RubricItem.tsx:18 | The digits of a number read back as that number. |
| RubricItem.DigitRun | components/RubricItem.tsx:18 | The run read is the longest prefix of digits. |
| Strings.Split | services/zipService.ts:28 | `split` on one character never gives an empty list, and no part holds the separator. |
| Strings.SplitLast | services/zipService.ts:28 | The last part of a split is an ending of the text; a single part is the whole text. |
| Strings.SplitJoin | App.tsx:27 | Splitting at a separator undoes joining with it when no part contains it. |
| Strings.NonEmpty | services/githubService.ts:13 | `filter(p => p)` keeps exactly the non-empty parts. |
| Strings.Trim | utils/notebookParser.ts:10 | `trim` removes the white space at both ends and nothing else. |
| Strings.TrimSkipsSpace | utils/notebookParser.ts:10 | Leading white space does not change the trimmed text. |
| Strings.TrimIdentity | utils/notebookParser.ts:10 | A text without white space at its ends is its own trim. |
| Strings.JsLengthAtLeast | App.tsx:39 | `.length` counts between one and two code units per character. |
| Strings.NatToString | utils/notebookParser.ts:29 | A number's decimal text is a non-empty run of digits without a leading zero. |
| Strings.NatToStringValue | utils/notebookParser.ts:29 | The decimal text reads back as the number. |
| Strings.NatToStringInjective | utils/notebookParser.ts:29 | Different numbers have different decimal texts. |

## Left out

- Network, ZIP reading and concurrency: `fetch` to jsDelivr, `response.json()`/`text()`, JSZip and `Promise.all` appear only as the answers they produce. Logging with `console` is dropped.
- `new URL(url)` is not modelled. Its host name and path name are an input, `None` when it throws.
- `JSON.parse`, `toFixed(1)` and `String(number)` are parameters. Only the notebook structure the formatter inspects is modelled: an array `cells` of cells with a type and a source.
- A listing whose JSON has no `files` array is not modelled: the code would throw a `TypeError` while reading it.
- Prompt.BlockLength: `fileContent.length` is given by a formula, 56 code units of ASCII template plus the UTF-16 length of the path twice and of the content. The template literal is not measured character by character; `BlockLengthOfBmp` ties the two for text in the Basic Multilingual Plane.
- Prompt.HeaderListsEveryPath: proved only for paths without a newline, since a newline inside a path cannot be told apart from the separator.
- Zip.ExtractFilesFromZip: the list of relevant extensions is a parameter, because the ZIP reader imports it from a constants file that does not define it.
- GitHub.DropErrors: a file whose real content happens to start with `Error:` is dropped too, as in the code. The model does not tell it apart from a failed fetch.
- Grading and colours use exact reals, not IEEE doubles. A NaN score is not modelled.
- RubricItem.ParseInt: reads an unbounded integer where JavaScript reads a double. After the clamp to 0–100 the emitted score is the same.
- Rubric.CriteriaAreHeadingTitles: the one-criterion-per-heading-line property holds only when no line other than the last is exactly `##`. That is how the regular expression behaves, so the condition is part of the contract.
- Markdown.SectionInPlace: the separators are counted through the sections' places rather than by counting `---` in the text, because a criterion or feedback may itself contain `---`.
- The language-model call, the rest of the React hooks and components, the PDF and Office parsers, `downloadFile`, the PDF generator, the score donut and the feedback renderer are not part of this model. They are foreign services, library wrappers or rendering.
