/**
  App.tsx: packing the project's files into one prompt under a character
  budget (`formatFilesForPrompt`) and the steps of `handleAnalyze` around it.
 */
module Prompt {
  import opened Types
  import opened Strings

  /** `MAX_PROMPT_CHARS`: the budget for the file blocks, in UTF-16 code units. */
  const MaxPromptChars: nat := 100000

  const HeaderIntro: string := "Lista completa de archivos en el proyecto:\n"
  const ContentStart: string := "\n\n--- INICIO DEL CONTENIDO DE ARCHIVOS ---\n"
  const TruncationNote: string :=
    "\n--- NOTA: El contenido de los archivos restantes ha sido truncado para no exceder el límite de contexto. Evaluar en base a la estructura de archivos y el contenido disponible. ---"

  const MissingUrlMessage: string := "Por favor, ingresa una URL de repositorio de GitHub válida."
  const NoFilesMessage: string :=
    "No se pudieron obtener archivos del repositorio. Podría ser privado, estar vacío o la URL es incorrecta."
  const UnexpectedErrorMessage: string :=
    "Ocurrió un error inesperado durante el análisis. Revisa la consola para más detalles."

  function Paths(files: seq<GitHubFile>): (r: seq<string>)
    ensures |r| == |files| && forall i :: 0 <= i < |files| ==> r[i] == files[i].path
  {
    if |files| == 0 then [] else [files[0].path] + Paths(files[1..])
  }

  /** The list of every path that opens the prompt, truncated files included. */
  function Header(files: seq<GitHubFile>): string
  {
    HeaderIntro + Join(Paths(files), "\n") + ContentStart
  }

  /** The block the loop appends for one file (the template literal, with its trailing indentation). */
  function FileBlock(f: GitHubFile): string
  {
    "\n--- ARCHIVO: " + f.path + " ---\n```\n" + f.content + "\n```\n--- FIN ARCHIVO: " + f.path + " ---\n      "
  }

  /** The number of characters of the template's own text, which is ASCII. */
  const FrameLength: nat := 56

  /**
    `fileContent.length` for the block of `f`: the fixed text counts one code
    unit per character, the path (twice) and the content count in UTF-16
    code units.
   */
  function BlockLength(f: GitHubFile): nat
  {
    FrameLength + 2 * JsLength(f.path) + JsLength(f.content)
  }

  /** For a file written in the Basic Multilingual Plane the block length is its number of characters. */
  lemma {:induction false} BlockLengthOfBmp(f: GitHubFile)
    requires forall i :: 0 <= i < |f.path| ==> f.path[i] as int <= 0xFFFF
    requires forall i :: 0 <= i < |f.content| ==> f.content[i] as int <= 0xFFFF
    ensures BlockLength(f) == |FileBlock(f)|
  {
    JsLengthOfBmp(f.path);
    JsLengthOfBmp(f.content);
  }

  /** A block is never shorter than its characters, nor than its fixed frame. */
  lemma {:induction false} BlockLengthBounds(f: GitHubFile)
    ensures FrameLength <= |FileBlock(f)| <= BlockLength(f)
  {
    JsLengthAtLeast(f.path);
    JsLengthAtLeast(f.content);
  }

  /** The blocks of `files`, one after another. */
  function Blocks(files: seq<GitHubFile>): string
  {
    if |files| == 0 then "" else FileBlock(files[0]) + Blocks(files[1..])
  }

  /** The summed length of the blocks of `files`, in code units. */
  function TotalLength(files: seq<GitHubFile>): nat
  {
    if |files| == 0 then 0 else BlockLength(files[0]) + TotalLength(files[1..])
  }

  /**
    How many files the greedy loop takes, starting with `used` code units
    already spent: it stops at the first block that does not fit.
   */
  function FitCount(files: seq<GitHubFile>, used: nat): (k: nat)
    ensures k <= |files|
  {
    if |files| == 0 then 0
    else if used + BlockLength(files[0]) > MaxPromptChars then 0
    else 1 + FitCount(files[1..], used + BlockLength(files[0]))
  }

  /** The prompt: the header, the blocks of the files that fit, and the note if any did not. */
  function FormattedPrompt(files: seq<GitHubFile>): string
  {
    var k := FitCount(files, 0);
    Header(files) + Blocks(files[..k]) + (if k < |files| then TruncationNote else "")
  }

  lemma {:induction false} BlocksSnoc(files: seq<GitHubFile>, f: GitHubFile)
    ensures Blocks(files + [f]) == Blocks(files) + FileBlock(f)
  {
    if |files| == 0 {
      assert files + [f] == [f];
    } else {
      assert (files + [f])[1..] == files[1..] + [f];
      BlocksSnoc(files[1..], f);
    }
  }

  lemma {:induction false} TotalLengthSnoc(files: seq<GitHubFile>, f: GitHubFile)
    ensures TotalLength(files + [f]) == TotalLength(files) + BlockLength(f)
  {
    if |files| == 0 {
      assert files + [f] == [f];
    } else {
      assert (files + [f])[1..] == files[1..] + [f];
      TotalLengthSnoc(files[1..], f);
    }
  }

  lemma {:induction false} TotalLengthPrefixCons(files: seq<GitHubFile>, j: nat)
    requires 0 < j <= |files|
    ensures TotalLength(files[..j]) == BlockLength(files[0]) + TotalLength(files[1..][..j - 1])
  {
    assert files[..j][1..] == files[1..][..j - 1];
  }

  /** The prefix of all the files is the files themselves. */
  lemma {:induction false} WholePrefix<T>(s: seq<T>, k: nat)
    requires k == |s|
    ensures s[..k] == s
  {
  }

  /**
    Block lengths are never negative, so a prefix whose total fits had every
    shorter prefix fit too: the greedy count is the length of the longest
    prefix that fits.
   */
  lemma {:induction false} FitCountOfPrefix(files: seq<GitHubFile>, used: nat, k: nat)
    requires k <= |files|
    requires used + TotalLength(files[..k]) <= MaxPromptChars
    requires k == |files| || used + TotalLength(files[..k]) + BlockLength(files[k]) > MaxPromptChars
    ensures FitCount(files, used) == k
  {
    if k == 0 {
      assert files[..0] == [];
    } else {
      TotalLengthPrefixCons(files, k);
      assert files[1..][k - 1..] == files[k..];
      if k < |files| {
        assert files[1..][k - 1] == files[k];
      }
      FitCountOfPrefix(files[1..], used + BlockLength(files[0]), k - 1);
    }
  }

  /** One turn of the loop of `FormatFilesForPrompt` in which the block fits. */
  lemma {:induction false} TakeOneMore(files: seq<GitHubFile>, i: nat, used: nat, header: string)
    requires i < |files|
    requires used == TotalLength(files[..i])
    ensures used + BlockLength(files[i]) == TotalLength(files[..i + 1])
    ensures header + Blocks(files[..i]) + FileBlock(files[i]) == header + Blocks(files[..i + 1])
  {
    assert files[..i + 1] == files[..i] + [files[i]];
    BlocksSnoc(files[..i], files[i]);
    TotalLengthSnoc(files[..i], files[i]);
    AppendAssoc(header, Blocks(files[..i]), FileBlock(files[i]));
  }

  /** The loop of `FormatFilesForPrompt` stops at a block that does not fit: the prompt ends with the note. */
  lemma {:induction false} StopAt(files: seq<GitHubFile>, i: nat)
    requires i < |files|
    requires TotalLength(files[..i]) <= MaxPromptChars
    requires TotalLength(files[..i]) + BlockLength(files[i]) > MaxPromptChars
    ensures FormattedPrompt(files) == Header(files) + Blocks(files[..i]) + TruncationNote
  {
    FitCountOfPrefix(files, 0, i);
  }

  /** The loop of `FormatFilesForPrompt` took every block: the prompt has no note. */
  lemma {:induction false} TookAll(files: seq<GitHubFile>)
    requires TotalLength(files) <= MaxPromptChars
    ensures FormattedPrompt(files) == Header(files) + Blocks(files)
  {
    WholePrefix(files, |files|);
    FitCountOfPrefix(files, 0, |files|);
    assert Header(files) + Blocks(files) + "" == Header(files) + Blocks(files);
  }

  /** `formatFilesForPrompt` (App.tsx:24-48), the imperative loop with its early `break`. */
  method FormatFilesForPrompt(files: seq<GitHubFile>) returns (content: string)
    ensures content == FormattedPrompt(files)
  {
    var characterCount: nat := 0;
    var allFilePaths := Join(Paths(files), "\n");
    content := HeaderIntro + allFilePaths + ContentStart;
    ghost var header := content;
    assert header == Header(files);
    var i := 0;
    while i < |files|
      invariant 0 <= i <= |files|
      invariant characterCount == TotalLength(files[..i]) <= MaxPromptChars
      invariant content == header + Blocks(files[..i])
    {
      var fileContent := FileBlock(files[i]);
      var fileLength := BlockLength(files[i]);
      if characterCount + fileLength > MaxPromptChars {
        StopAt(files, i);
        content := content + TruncationNote;
        break;
      }
      TakeOneMore(files, i, characterCount, header);
      content := content + fileContent;
      characterCount := characterCount + fileLength;
      i := i + 1;
    }
    if i == |files| {
      WholePrefix(files, i);
      TookAll(files);
    }
  }

  /** From any budget already spent, the blocks the loop takes keep the total within the budget. */
  lemma {:induction false} FitCountWithinBudget(files: seq<GitHubFile>, used: nat)
    requires used <= MaxPromptChars
    ensures used + TotalLength(files[..FitCount(files, used)]) <= MaxPromptChars
  {
    var k := FitCount(files, used);
    if k > 0 {
      FitCountWithinBudget(files[1..], used + BlockLength(files[0]));
      TotalLengthPrefixCons(files, k);
    }
  }

  /** The summed length of the included blocks never exceeds `MAX_PROMPT_CHARS`. */
  lemma {:induction false} IncludedWithinBudget(files: seq<GitHubFile>)
    ensures TotalLength(files[..FitCount(files, 0)]) <= MaxPromptChars
  {
    FitCountWithinBudget(files, 0);
  }

  /**
    The included files are the greedy prefix: each of them fitted when its
    turn came, and the first one left out did not.
   */
  lemma {:induction false} FitCountIsGreedy(files: seq<GitHubFile>, used: nat)
    ensures forall j :: 0 <= j < FitCount(files, used) ==>
      used + TotalLength(files[..j]) + BlockLength(files[j]) <= MaxPromptChars
    ensures FitCount(files, used) < |files| ==>
      used + TotalLength(files[..FitCount(files, used)]) + BlockLength(files[FitCount(files, used)]) > MaxPromptChars
  {
    var k := FitCount(files, used);
    assert files[..0] == [];
    if k > 0 {
      var w := BlockLength(files[0]);
      FitCountIsGreedy(files[1..], used + w);
      forall j | 0 < j <= k
        ensures TotalLength(files[..j]) == w + TotalLength(files[1..][..j - 1])
      {
        TotalLengthPrefixCons(files, j);
      }
    }
  }

  /**
    The truncation note is added exactly when the blocks of all the files
    together exceed the budget (some block did not fit).
   */
  lemma {:induction false} TruncatedIffOverBudget(files: seq<GitHubFile>, used: nat)
    requires used <= MaxPromptChars
    ensures FitCount(files, used) < |files| <==> used + TotalLength(files) > MaxPromptChars
  {
    if |files| > 0 && used + BlockLength(files[0]) <= MaxPromptChars {
      TruncatedIffOverBudget(files[1..], used + BlockLength(files[0]));
    }
  }

  /**
    The prompt is the header and the blocks of all the files when they fit
    together, and otherwise the header, the blocks of a proper prefix and the
    note.
   */
  lemma {:induction false} PromptShape(files: seq<GitHubFile>)
    ensures TotalLength(files) <= MaxPromptChars ==>
      FormattedPrompt(files) == Header(files) + Blocks(files)
    ensures TotalLength(files) > MaxPromptChars ==>
      && FitCount(files, 0) < |files|
      && FormattedPrompt(files) == Header(files) + Blocks(files[..FitCount(files, 0)]) + TruncationNote
  {
    TruncatedIffOverBudget(files, 0);
    if TotalLength(files) <= MaxPromptChars {
      WholePrefix(files, FitCount(files, 0));
    }
  }

  /** When the first block alone is over the budget no content is included at all. */
  lemma {:induction false} FirstBlockTooLarge(files: seq<GitHubFile>)
    requires |files| > 0 && BlockLength(files[0]) > MaxPromptChars
    ensures FormattedPrompt(files) == Header(files) + TruncationNote
  {
    assert files[..0] == [];
  }

  /** The header names every file, in order: its list, split at newlines, gives back the paths. */
  lemma {:induction false} HeaderListsEveryPath(files: seq<GitHubFile>)
    requires |files| > 0
    requires forall i :: 0 <= i < |files| ==> '\n' !in files[i].path
    ensures Split(Join(Paths(files), "\n"), '\n') == Paths(files)
  {
    SplitJoin(Paths(files), '\n');
  }

  /** What `handleAnalyze` ends in, for a given result of `getRepoContents`. */
  datatype Analysis =
    | InvalidInput(error: string)                        // rejected before anything is fetched
    | FetchFailed(error: string)                         // `getRepoContents` threw
    | NoFiles(repoName: string, error: string)           // the listing came back empty
    | Evaluate(repoName: string, projectContext: string) // the context passed to the evaluator

  /**
    `handleAnalyze` (App.tsx:50-84) up to the evaluator call: `fetched` is
    what `getRepoContents(repoUrl)` returns or throws.
   */
  method HandleAnalyze(repoUrl: string, fetched: Result<RepoContents>) returns (a: Analysis)
    ensures repoUrl == "" ==> a == InvalidInput(MissingUrlMessage)
    ensures repoUrl != "" && fetched.Failure? ==>
      a == FetchFailed(if fetched.message == "" then UnexpectedErrorMessage else fetched.message)
    ensures repoUrl != "" && fetched.Success? && |fetched.value.files| == 0 ==>
      a == NoFiles(fetched.value.repoName, NoFilesMessage)
    ensures repoUrl != "" && fetched.Success? && |fetched.value.files| > 0 ==>
      && a.Evaluate?
      && a.repoName == fetched.value.repoName
      && var prompt := FormattedPrompt(fetched.value.files);
         match fetched.value.envFileWarning
         case Some(w) => a.projectContext == (if w != "" then w + prompt else prompt)
         case None => a.projectContext == prompt
  {
    if repoUrl == "" {
      return InvalidInput(MissingUrlMessage);
    }
    match fetched
    case Failure(message) =>
      a := FetchFailed(if message == "" then UnexpectedErrorMessage else message);
    case Success(contents) =>
      if |contents.files| == 0 {
        return NoFiles(contents.repoName, NoFilesMessage);
      }
      var projectContext := FormatFilesForPrompt(contents.files);
      if contents.envFileWarning.Some? && contents.envFileWarning.value != "" {
        projectContext := contents.envFileWarning.value + projectContext;
      }
      a := Evaluate(contents.repoName, projectContext);
  }
}
