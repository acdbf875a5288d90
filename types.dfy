/** The record shapes of types.ts, plus the results the services hand back. */
module Types {

  /** A file of the evaluated project: its path and its (normalised) text. */
  datatype GitHubFile = GitHubFile(path: string, content: string)

  /** One criterion of an evaluation, with its score (0 to 100) and its feedback. */
  datatype EvaluationItem = EvaluationItem(criterion: string, score: real, feedback: string)

  datatype EvaluationResult = EvaluationResult(
    overallScore: real,
    summary: string,
    professionalismSummary: string,
    report: seq<EvaluationItem>,
    finalChileanGrade: real)

  /**
    The `source` field of a notebook cell: an array of strings, or any other
    JSON value, given here as the text `String(value)` produces for it.
   */
  datatype CellSource = Lines(parts: seq<string>) | Other(text: string)

  datatype NotebookCell = NotebookCell(cellType: string, source: CellSource)

  /**
    What `JSON.parse` makes of a notebook file, as far as the formatter
    looks at it: a parse failure, a value without an array `cells`, or the cells.
   */
  datatype NotebookJson = ParseFail | NoCells | Cells(cells: seq<NotebookCell>)

  /**
    What a source service hands to the application: the files, the project
    name and, when the service produces one, the security warning
    (`None` stands for a field the service does not return).
   */
  datatype RepoContents = RepoContents(files: seq<GitHubFile>, repoName: string, envFileWarning: Option<string>)

  datatype Option<+T> = None | Some(value: T)

  /** A value or the message of the error the source throws instead. */
  datatype Result<+T> = Success(value: T) | Failure(message: string)
}
