/**
  services/githubService.ts: from a repository URL to the files of the
  project. The network is not modelled: the listing service and the file
  service are given as functions from what is asked to what comes back, and
  `JSON.parse` of a notebook as a function from its text to a `NotebookJson`.
 */
module GitHub {
  import opened Types
  import opened Strings
  import Notebook

  /** The file suffixes worth sending to the evaluator. */
  const RelevantExtensions: seq<string> :=
    [".py", ".yml", ".yaml", ".md", ".txt", ".json", ".ipynb", ".cfg", ".toml", ".ini"]

  /** The branches probed, in order, when the URL names none. */
  const Candidates: seq<string> := ["main", "master"]

  /** What `new URL(url)` gives: its host name and its path, or `None` when it throws. */
  datatype UrlParts = UrlParts(hostname: string, pathname: string)

  datatype RepoInfo = RepoInfo(owner: string, repo: string, branch: Option<string>, path: string)

  /** The non-empty segments of a path name. */
  function PathParts(pathname: string): (r: seq<string>)
    ensures forall i :: 0 <= i < |r| ==> r[i] != "" && '/' !in r[i]
  {
    var parts := Split(pathname, '/');
    var r := NonEmpty(parts);
    assert forall i :: 0 <= i < |r| ==> r[i] in parts;
    r
  }

  /** A path built from non-empty segments without `/` splits back into them. */
  lemma {:induction false} PathPartsOfSegments(segs: seq<string>)
    requires |segs| >= 1
    requires forall i :: 0 <= i < |segs| ==> segs[i] != "" && '/' !in segs[i]
    ensures PathParts("/" + Join(segs, "/")) == segs
  {
    SplitJoin(segs, '/');
    assert "/" + Join(segs, "/") == "" + ['/'] + Join(segs, "/");
    SplitAround("", Join(segs, "/"), '/');
    assert Split("", '/') == [""];
    NonEmptyAppend([""], segs);
    NonEmptyKeepsAll(segs);
    assert NonEmpty([""]) == [];
  }

  /** The repository name without one trailing `.git`. */
  function StripGit(name: string): string
  {
    DropSuffix(name, ".git")
  }

  predicate IsTypeMarker(p: string)
  {
    p == "tree" || p == "blob"
  }

  /** `findIndex` of the first `tree` or `blob` segment, or -1. */
  function TypeIndex(parts: seq<string>): (k: int)
    ensures -1 <= k < |parts|
    ensures k == -1 <==> forall i :: 0 <= i < |parts| ==> !IsTypeMarker(parts[i])
    ensures k >= 0 ==> IsTypeMarker(parts[k]) && forall i :: 0 <= i < k ==> !IsTypeMarker(parts[i])
  {
    if |parts| == 0 then -1
    else if IsTypeMarker(parts[0]) then 0
    else
      var k := TypeIndex(parts[1..]);
      if k == -1 then -1 else k + 1
  }

  /** `parseRepoUrl` (services/githubService.ts:8-38). */
  function ParseRepoUrl(url: Option<UrlParts>): (r: Option<RepoInfo>)
    ensures r.Some? ==> url.Some? && url.value.hostname == "github.com" && |PathParts(url.value.pathname)| >= 2
    ensures r.Some? ==> r.value.owner != "" && '/' !in r.value.owner
    ensures r.Some? && r.value.branch.None? ==> r.value.path == ""
  {
    match url
    case None => None
    case Some(u) =>
      if u.hostname != "github.com" then None
      else
        var parts := PathParts(u.pathname);
        if |parts| < 2 then None
        else
          var typeIndex := TypeIndex(parts);
          if typeIndex != -1 && |parts| > typeIndex + 1 then
            Some(RepoInfo(parts[0], StripGit(parts[1]), Some(parts[typeIndex + 1]), Join(parts[typeIndex + 2..], "/")))
          else
            Some(RepoInfo(parts[0], StripGit(parts[1]), None, ""))
  }

  /** The URL is refused exactly when it does not parse, is not on `github.com`, or has fewer than two segments. */
  lemma {:induction false} ParseRepoUrlRefuses(url: Option<UrlParts>)
    ensures ParseRepoUrl(url).None? <==>
      url.None? || url.value.hostname != "github.com" || |PathParts(url.value.pathname)| < 2
  {
  }

  /**
    Owner and repository are the first two segments (one `.git` removed);
    a branch is set exactly when some `tree` or `blob` segment has a segment
    after it, and then it is the segment after the first such marker and the
    path is the rest joined with `/`; otherwise there is no branch and the
    path is empty.
   */
  lemma {:induction false} ParseRepoUrlFields(u: UrlParts)
    requires ParseRepoUrl(Some(u)).Some?
    ensures var parts := PathParts(u.pathname);
      var info := ParseRepoUrl(Some(u)).value;
      && info.owner == parts[0]
      && info.repo == StripGit(parts[1])
      && (info.branch.Some? <==> HasBranchMarker(parts))
      && (info.branch.Some? ==>
            var t := TypeIndex(parts);
            info.branch.value == parts[t + 1] && info.path == Join(parts[t + 2..], "/"))
      && (info.branch.None? ==> info.path == "")
  {
    BranchMarkerFound(PathParts(u.pathname));
  }

  /** Some `tree` or `blob` segment has a segment after it. */
  predicate HasBranchMarker(parts: seq<string>)
  {
    exists i :: 0 <= i < |parts| - 1 && IsTypeMarker(parts[i])
  }

  /** The test on the first marker is the same as asking for any marker with a segment after it. */
  lemma {:induction false} BranchMarkerFound(parts: seq<string>)
    ensures (TypeIndex(parts) != -1 && |parts| > TypeIndex(parts) + 1) <==> HasBranchMarker(parts)
  {
    var t := TypeIndex(parts);
    if HasBranchMarker(parts) {
      var i :| 0 <= i < |parts| - 1 && IsTypeMarker(parts[i]);
      assert t != -1;
      assert t <= i;
    }
  }

  /** `https://github.com/o/r.git/tree/b/x/y`, with any segments in place of the letters. */
  lemma {:induction false} ParseTreeUrl(owner: string, repo: string, branch: string, rest: seq<string>)
    requires forall s :: s in [owner, repo + ".git", branch] + rest ==> s != "" && '/' !in s
    requires !IsTypeMarker(owner) && !IsTypeMarker(repo + ".git")
    ensures ParseRepoUrl(Some(UrlParts("github.com", "/" + Join([owner, repo + ".git", "tree", branch] + rest, "/"))))
      == Some(RepoInfo(owner, repo, Some(branch), Join(rest, "/")))
  {
    var segs := [owner, repo + ".git", "tree", branch] + rest;
    forall i | 0 <= i < |segs|
      ensures segs[i] != "" && '/' !in segs[i]
    {
      if i != 2 {
        assert segs[i] in [owner, repo + ".git", branch] + rest;
      }
    }
    PathPartsOfSegments(segs);
    assert TypeIndex(segs[2..]) == 0;
    assert TypeIndex(segs[1..]) == 1;
    assert TypeIndex(segs) == 2;
    assert segs[4..] == rest;
    DropSuffixOnce(repo, ".git");
  }

  /** What the listing service answers for one reference: the file names, or why there are none. */
  datatype ListResponse =
    | ListOk(names: seq<string>)          // ok, and `json()` gives the `files`
    | ListOkUnreadable(message: string)   // ok, but `json()` throws
    | ListNotOk(status: nat)
    | ListThrew(message: string)          // `fetch` itself throws

  /** The first candidate whose listing is ok and readable, with its file names. */
  function FirstListed(candidates: seq<string>, listFiles: string -> ListResponse): Option<(string, seq<string>)>
  {
    if |candidates| == 0 then None
    else match listFiles(candidates[0])
      case ListOk(names) => Some((candidates[0], names))
      case _ => FirstListed(candidates[1..], listFiles)
  }

  /**
    The chosen branch is a candidate whose listing is ok, and every
    candidate before it failed (non-ok or thrown); nothing is chosen only
    when all of them failed.
   */
  lemma {:induction false} FirstListedIsFirst(candidates: seq<string>, listFiles: string -> ListResponse)
    ensures FirstListed(candidates, listFiles).None? <==>
      forall i :: 0 <= i < |candidates| ==> !listFiles(candidates[i]).ListOk?
    ensures FirstListed(candidates, listFiles).Some? ==>
      var (ref, names) := FirstListed(candidates, listFiles).value;
      exists k :: 0 <= k < |candidates| && candidates[k] == ref && listFiles(ref) == ListOk(names) &&
        forall i :: 0 <= i < k ==> !listFiles(candidates[i]).ListOk?
  {
    if |candidates| > 0 {
      FirstListedIsFirst(candidates[1..], listFiles);
      if !listFiles(candidates[0]).ListOk? && FirstListed(candidates, listFiles).Some? {
        var (ref, names) := FirstListed(candidates, listFiles).value;
        var k :| 0 <= k < |candidates| - 1 && candidates[1..][k] == ref && listFiles(ref) == ListOk(names) &&
          forall i :: 0 <= i < k ==> !listFiles(candidates[1..][i]).ListOk?;
        assert candidates[k + 1] == ref;
        assert forall i :: 0 <= i < k + 1 ==> !listFiles(candidates[i]).ListOk? by {
          forall i | 0 <= i < k + 1 ensures !listFiles(candidates[i]).ListOk? {
            if i > 0 {
              assert candidates[i] == candidates[1..][i - 1];
            }
          }
        }
      }
    }
  }

  /** When `main` fails and `master` is listed, the branch is `master`. */
  lemma {:induction false} MainFailsMasterListed(listFiles: string -> ListResponse, names: seq<string>)
    requires !listFiles("main").ListOk?
    requires listFiles("master") == ListOk(names)
    ensures FirstListed(Candidates, listFiles) == Some(("master", names))
  {
    assert Candidates[1..] == ["master"];
  }

  /**
    The probing loop of `getRepoContents` (services/githubService.ts:82-105).
    `ref` is assigned before `json()` is read, so a candidate whose listing
    is unreadable is left in `ref` when the loop moves on.
   */
  method ProbeDefaultBranch(listFiles: string -> ListResponse)
    returns (ref: Option<string>, listData: Option<seq<string>>, foundBranch: bool)
    ensures foundBranch <==> FirstListed(Candidates, listFiles).Some?
    ensures foundBranch ==>
      ref == Some(FirstListed(Candidates, listFiles).value.0) &&
      listData == Some(FirstListed(Candidates, listFiles).value.1)
  {
    ref := None;
    listData := None;
    foundBranch := false;
    var i := 0;
    while i < |Candidates|
      invariant 0 <= i <= |Candidates|
      invariant !foundBranch
      invariant FirstListed(Candidates, listFiles) == FirstListed(Candidates[i..], listFiles)
    {
      var candidate := Candidates[i];
      assert Candidates[i..][1..] == Candidates[i + 1..];
      match listFiles(candidate) {
        case ListOk(names) =>
          ref := Some(candidate);
          listData := Some(names);
          foundBranch := true;
          break;
        case ListOkUnreadable(_) =>
          ref := Some(candidate);
        case ListNotOk(_) =>
        case ListThrew(_) =>
      }
      i := i + 1;
    }
  }

  const InvalidUrlMessage: string :=
    "URL de repositorio de GitHub inválida. Por favor, usa un formato válido como https://github.com/owner/repo."
  const NoDefaultBranchMessage: string :=
    "No se pudo determinar la rama por defecto. Se intentó con 'main' y 'master' sin éxito. Por favor, especifica la rama en la URL (ej: .../tree/main)."

  function ListingErrorMessage(ref: string, status: nat): string
  {
    "No se pudo obtener la lista de archivos para la rama/ref '" + ref + "' (Estado: " + NatToString(status) + "). Asegúrate que la rama exista."
  }

  function NoRelevantFilesMessage(path: string): string
  {
    "No se encontraron archivos relevantes (.py, .yml, .md, etc.)"
    + (if path != "" then " en la ruta especificada ('" + path + "')" else "")
    + ". El directorio podría estar vacío o contener tipos de archivo no soportados."
  }

  /** A listed name is in scope when it is `/path` or lies under `/path/`. */
  predicate UnderPath(name: string, path: string)
  {
    StartsWith(name, "/" + path + "/") || name == "/" + path
  }

  /** `name.substring(1)` */
  function DropSlash(name: string): string
  {
    if |name| == 0 then "" else name[1..]
  }

  predicate IsRelevant(path: string)
  {
    EndsWithAny(path, RelevantExtensions)
  }

  /** The path, relative to the repository root, of a listed name inside `path`. */
  lemma {:induction false} DropSlashUnderPath(name: string, path: string)
    requires UnderPath(name, path)
    ensures StartsWith(DropSlash(name), path + "/") || DropSlash(name) == path
  {
    if StartsWith(name, "/" + path + "/") {
      assert DropSlash(name)[..|path + "/"|] == name[..|"/" + path + "/"|][1..];
      assert ("/" + path + "/")[1..] == path + "/";
    } else {
      assert ("/" + path)[1..] == path;
    }
  }

  lemma {:induction false} DropSlashInScope(name: string, path: string)
    requires path == "" || UnderPath(name, path)
    ensures path != "" ==> StartsWith(DropSlash(name), path + "/") || DropSlash(name) == path
  {
    if path != "" {
      DropSlashUnderPath(name, path);
    }
  }

  /**
    The files chosen for fetching (services/githubService.ts:121-132): the
    listed names in scope (all of them when no path is given), without
    their leading `/`, that end with a relevant extension, in listing order.
   */
  function Selected(names: seq<string>, path: string): (r: seq<string>)
    ensures forall i :: 0 <= i < |r| ==> IsRelevant(r[i])
    ensures path != "" ==> forall i :: 0 <= i < |r| ==> StartsWith(r[i], path + "/") || r[i] == path
  {
    if |names| == 0 then []
    else
      var rest := Selected(names[1..], path);
      var name := names[0];
      if (path == "" || UnderPath(name, path)) && IsRelevant(DropSlash(name)) then
        DropSlashInScope(name, path);
        [DropSlash(name)] + rest
      else rest
  }

  /** A file is selected exactly when some listed name in scope gives it. */
  lemma {:induction false} SelectedMembers(names: seq<string>, path: string, p: string)
    ensures p in Selected(names, path) <==>
      exists i :: 0 <= i < |names| && (path == "" || UnderPath(names[i], path)) &&
        DropSlash(names[i]) == p && IsRelevant(p)
  {
    if |names| > 0 {
      SelectedMembers(names[1..], path, p);
      if exists i :: 0 <= i < |names| && (path == "" || UnderPath(names[i], path)) && DropSlash(names[i]) == p && IsRelevant(p) {
        var i :| 0 <= i < |names| && (path == "" || UnderPath(names[i], path)) && DropSlash(names[i]) == p && IsRelevant(p);
        if i > 0 {
          assert names[1..][i - 1] == names[i];
        }
      }
      if p in Selected(names[1..], path) {
        var i :| 0 <= i < |names| - 1 && (path == "" || UnderPath(names[1..][i], path)) && DropSlash(names[1..][i]) == p && IsRelevant(p);
        assert names[i + 1] == names[1..][i];
      }
    }
  }

  /** Selection keeps listing order: it distributes over concatenation of listings. */
  lemma {:induction false} SelectedAppend(a: seq<string>, b: seq<string>, path: string)
    ensures Selected(a + b, path) == Selected(a, path) + Selected(b, path)
  {
    if |a| == 0 {
      assert a + b == b;
    } else {
      assert (a + b)[1..] == a[1..] + b;
      SelectedAppend(a[1..], b, path);
    }
  }

  /** What the file service answers for one file. */
  datatype ContentResponse =
    | ContentOk(raw: string)
    | ContentNotOk(status: nat)
    | ContentThrew(message: string)

  /** The content that stands for a file that could not be fetched. */
  function FetchErrorText(message: string): string
  {
    Notebook.ErrorTag + " No se pudo obtener el contenido. (" + message + ")"
  }

  /** The older notebook formatter of services/githubService.ts:40-68, which has no brace guard. */
  method ParseAndFormatNotebook(rawContent: string, parsed: NotebookJson) returns (r: string)
    ensures r == Notebook.FormatParsed(rawContent, parsed)
    ensures Notebook.PassesBraceGuard(rawContent) ==> r == Notebook.NotebookText(rawContent, parsed)
  {
    match parsed
    case ParseFail =>
      r := Notebook.ParseErrorPrefix + rawContent;
    case NoCells =>
      r := Notebook.InvalidFormatPrefix + rawContent;
    case Cells(cells) =>
      r := Notebook.FormatCells(cells);
  }

  /** One file as the fetch step makes it (services/githubService.ts:140-159). */
  function FetchedFile(path: string, response: ContentResponse, parseJson: string -> NotebookJson): GitHubFile
  {
    match response
    case ContentOk(raw) =>
      GitHubFile(path, if EndsWith(path, ".ipynb") then Notebook.FormatParsed(raw, parseJson(raw)) else raw)
    case ContentNotOk(status) => GitHubFile(path, FetchErrorText("Estado " + NatToString(status)))
    case ContentThrew(message) => GitHubFile(path, FetchErrorText(message))
  }

  /** `filesToFetch.map(...)`: one fetched file per selected path, in order. */
  function FetchAll(ref: string, paths: seq<string>, fetchFile: (string, string) -> ContentResponse,
                    parseJson: string -> NotebookJson): (r: seq<GitHubFile>)
    ensures |r| == |paths|
    ensures forall i :: 0 <= i < |paths| ==> r[i] == FetchedFile(paths[i], fetchFile(ref, paths[i]), parseJson)
  {
    if |paths| == 0 then []
    else [FetchedFile(paths[0], fetchFile(ref, paths[0]), parseJson)] + FetchAll(ref, paths[1..], fetchFile, parseJson)
  }

  /** `files.filter(f => !f.content.startsWith('Error:'))` */
  function DropErrors(files: seq<GitHubFile>): (r: seq<GitHubFile>)
    ensures forall i :: 0 <= i < |r| ==> !StartsWith(r[i].content, Notebook.ErrorTag)
    ensures forall f :: f in r <==> f in files && !StartsWith(f.content, Notebook.ErrorTag)
  {
    if |files| == 0 then []
    else if StartsWith(files[0].content, Notebook.ErrorTag) then DropErrors(files[1..])
    else [files[0]] + DropErrors(files[1..])
  }

  /** A file that could not be fetched, or a notebook whose JSON is unusable, is never returned. */
  lemma {:induction false} FailedFilesDropped(path: string, response: ContentResponse, parseJson: string -> NotebookJson)
    requires || response.ContentNotOk? || response.ContentThrew?
             || (response.ContentOk? && EndsWith(path, ".ipynb") && !parseJson(response.raw).Cells?)
    ensures StartsWith(FetchedFile(path, response, parseJson).content, Notebook.ErrorTag)
  {
    match response
    case ContentOk(raw) =>
      Notebook.FailuresStartWithError(raw);
    case ContentNotOk(status) =>
      StartsWithAppend(Notebook.ErrorTag, " No se pudo obtener el contenido. (" + ("Estado " + NatToString(status)) + ")");
    case ContentThrew(message) =>
      StartsWithAppend(Notebook.ErrorTag, " No se pudo obtener el contenido. (" + message + ")");
  }

  /** The branch and the listing `getRepoContents` works from (services/githubService.ts:77-118). */
  function ListingOf(info: RepoInfo, listFiles: string -> ListResponse): Result<(string, seq<string>)>
  {
    match info.branch
    case None =>
      (match FirstListed(Candidates, listFiles)
       case None => Failure(NoDefaultBranchMessage)
       case Some(listed) => Success(listed))
    case Some(branch) =>
      (match listFiles(branch)
       case ListOk(names) => Success((branch, names))
       case ListOkUnreadable(message) => Failure(message)
       case ListNotOk(status) => Failure(ListingErrorMessage(branch, status))
       case ListThrew(message) => Failure(message))
  }

  /** What `getRepoContents` resolves to once the listing is known (services/githubService.ts:118-163). */
  function ContentsOf(info: RepoInfo, ref: string, names: seq<string>, fetchFile: (string, string) -> ContentResponse,
                      parseJson: string -> NotebookJson): Result<RepoContents>
  {
    var filesToFetch := Selected(names, info.path);
    if |filesToFetch| == 0 then Failure(NoRelevantFilesMessage(info.path))
    else Success(RepoContents(DropErrors(FetchAll(ref, filesToFetch, fetchFile, parseJson)), info.repo, None))
  }

  /** `getRepoContents` (services/githubService.ts:70-164) as a function of what the services answer. */
  function RepoContentsOf(url: Option<UrlParts>, listFiles: string -> ListResponse,
                          fetchFile: (string, string) -> ContentResponse, parseJson: string -> NotebookJson): Result<RepoContents>
  {
    match ParseRepoUrl(url)
    case None => Failure(InvalidUrlMessage)
    case Some(info) =>
      match ListingOf(info, listFiles)
      case Failure(message) => Failure(message)
      case Success(listed) => ContentsOf(info, listed.0, listed.1, fetchFile, parseJson)
  }

  /**
    Steps 1 and 2 of `getRepoContents` (services/githubService.ts:77-116):
    probe the default branch when the URL names none, otherwise list the
    named one.
   */
  method ResolveListing(info: RepoInfo, listFiles: string -> ListResponse) returns (r: Result<(string, seq<string>)>)
    ensures r == ListingOf(info, listFiles)
  {
    var ref := info.branch;
    var listData: Option<seq<string>> := None;
    if ref.None? {
      var foundBranch;
      ref, listData, foundBranch := ProbeDefaultBranch(listFiles);
      if !foundBranch {
        return Failure(NoDefaultBranchMessage);
      }
    }
    if listData.None? {
      match listFiles(ref.value) {
        case ListOk(names) =>
          listData := Some(names);
        case ListOkUnreadable(message) =>
          return Failure(message);
        case ListNotOk(status) =>
          return Failure(ListingErrorMessage(ref.value, status));
        case ListThrew(message) =>
          return Failure(message);
      }
    }
    r := Success((ref.value, listData.value));
  }

  /** `getRepoContents`, with its early errors. */
  method GetRepoContents(url: Option<UrlParts>, listFiles: string -> ListResponse,
                         fetchFile: (string, string) -> ContentResponse, parseJson: string -> NotebookJson)
    returns (result: Result<RepoContents>)
    ensures result == RepoContentsOf(url, listFiles, fetchFile, parseJson)
  {
    var repoInfo := ParseRepoUrl(url);
    if repoInfo.None? {
      return Failure(InvalidUrlMessage);
    }
    var info := repoInfo.value;
    var listing := ResolveListing(info, listFiles);
    if listing.Failure? {
      return Failure(listing.message);
    }
    var (ref, allFiles) := listing.value;
    var filesToFetch := Selected(allFiles, info.path);
    if |filesToFetch| == 0 {
      return Failure(NoRelevantFilesMessage(info.path));
    }
    var files := FetchAll(ref, filesToFetch, fetchFile, parseJson);
    result := Success(RepoContents(DropErrors(files), info.repo, None));
  }

  /** A URL that does not parse is refused before anything is fetched. */
  lemma {:induction false} InvalidUrlRefused(url: Option<UrlParts>, listFiles: string -> ListResponse,
                          fetchFile: (string, string) -> ContentResponse, parseJson: string -> NotebookJson)
    requires ParseRepoUrl(url).None?
    ensures RepoContentsOf(url, listFiles, fetchFile, parseJson) == Failure(InvalidUrlMessage)
  {
  }

  /**
    When nothing survives the filters the result is the "no relevant files"
    error, whatever the file service would have answered: no content is fetched.
   */
  lemma {:induction false} EmptySelectionFailsBeforeFetching(info: RepoInfo, ref: string, names: seq<string>,
                                          fetchA: (string, string) -> ContentResponse,
                                          fetchB: (string, string) -> ContentResponse,
                                          parseJson: string -> NotebookJson)
    requires Selected(names, info.path) == []
    ensures ContentsOf(info, ref, names, fetchA, parseJson) == Failure(NoRelevantFilesMessage(info.path))
    ensures ContentsOf(info, ref, names, fetchA, parseJson) == ContentsOf(info, ref, names, fetchB, parseJson)
  {
  }

  /**
    A successful result is named after the parsed repository, carries no
    security warning, and every file it returns was selected, is relevant and
    has content that does not start with `Error:`.
   */
  lemma {:induction false} ReturnedFiles(url: Option<UrlParts>, listFiles: string -> ListResponse,
                      fetchFile: (string, string) -> ContentResponse, parseJson: string -> NotebookJson)
    requires RepoContentsOf(url, listFiles, fetchFile, parseJson).Success?
    ensures var info := ParseRepoUrl(url).value;
      var contents := RepoContentsOf(url, listFiles, fetchFile, parseJson).value;
      var listed := ListingOf(info, listFiles).value;
      && contents.repoName == info.repo
      && contents.envFileWarning.None?
      && forall f :: f in contents.files ==>
           && f.path in Selected(listed.1, info.path)
           && IsRelevant(f.path)
           && !StartsWith(f.content, Notebook.ErrorTag)
  {
    var info := ParseRepoUrl(url).value;
    var listed := ListingOf(info, listFiles).value;
    FetchedFilesReturned(info, listed.0, listed.1, fetchFile, parseJson);
  }

  lemma {:induction false} FetchedFilesReturned(info: RepoInfo, ref: string, names: seq<string>,
                                                fetchFile: (string, string) -> ContentResponse, parseJson: string -> NotebookJson)
    requires ContentsOf(info, ref, names, fetchFile, parseJson).Success?
    ensures var contents := ContentsOf(info, ref, names, fetchFile, parseJson).value;
      && contents.repoName == info.repo
      && contents.envFileWarning.None?
      && forall f :: f in contents.files ==>
           && f.path in Selected(names, info.path)
           && IsRelevant(f.path)
           && !StartsWith(f.content, Notebook.ErrorTag)
  {
    var paths := Selected(names, info.path);
    var fetched := FetchAll(ref, paths, fetchFile, parseJson);
    forall f | f in DropErrors(fetched)
      ensures f.path in paths
    {
      var i :| 0 <= i < |fetched| && fetched[i] == f;
      assert f.path == paths[i];
    }
  }
}
