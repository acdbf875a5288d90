/**
  services/zipService.ts: the files of a project uploaded as a ZIP archive.
  Reading the archive is not modelled: it is given as its entries, each
  with the text its read produced or `None` when the read failed, or as
  `None` altogether when the archive could not be opened.
 */
module Zip {
  import opened Types
  import opened Strings
  import GitHub

  /** One entry of the archive, in enumeration order. */
  datatype ZipEntry = ZipEntry(name: string, dir: bool, read: Option<string>)

  /** The warning raised when a `.env` file sits at the top of the archive or of its project folder. */
  const EnvWarning: string :=
    "\n--- ALERTA DE SEGURIDAD CRÍTICA ---\nSe detectó un archivo `.env` en el archivo ZIP. Este es un anti-patrón de seguridad grave, ya que expone secretos. Este hecho debe ser mencionado en el feedback y penalizado severamente en la categoría de 'Buenas Prácticas'.\n---------------------------------\n"

  const InvalidZipMessage: string := "El archivo proporcionado no es un ZIP válido o está corrupto."

  /** The project name: the archive's name without one trailing `.zip`. */
  function ArchiveBaseName(fileName: string): string
  {
    DropSuffix(fileName, ".zip")
  }

  /** An entry is looked at when it is a file whose name ends with a relevant extension. */
  predicate Kept(e: ZipEntry, relevantExtensions: seq<string>)
  {
    !e.dir && EndsWithAny(e.name, relevantExtensions)
  }

  /** At most two `/`-separated parts, the last of them `.env`. */
  predicate IsRootEnv(name: string)
  {
    var pathParts := Split(name, '/');
    |pathParts| <= 2 && pathParts[|pathParts| - 1] == ".env"
  }

  lemma EnvHasNoSlash()
    ensures Split(".env", '/') == [".env"]
  {
    assert '/' !in ".env";
    SplitNone(".env", '/');
  }

  /** A kept `.env` entry at the top of the archive raises the warning. */
  lemma {:induction false} TopLevelEnvFlagged(entries: seq<ZipEntry>, relevantExtensions: seq<string>, i: nat)
    requires i < |entries| && Kept(entries[i], relevantExtensions) && entries[i].name == ".env"
    ensures WarningOf(entries, relevantExtensions) == EnvWarning
  {
    EnvHasNoSlash();
    assert IsRootEnv(entries[i].name);
  }

  /** A kept `folder/.env` entry raises the warning. */
  lemma {:induction false} FolderEnvFlagged(entries: seq<ZipEntry>, relevantExtensions: seq<string>, i: nat, folder: string)
    requires '/' !in folder
    requires i < |entries| && Kept(entries[i], relevantExtensions) && entries[i].name == folder + "/.env"
    ensures WarningOf(entries, relevantExtensions) == EnvWarning
  {
    EnvHasNoSlash();
    SplitNone(folder, '/');
    assert folder + "/.env" == folder + ['/'] + ".env";
    SplitAround(folder, ".env", '/');
    assert IsRootEnv(entries[i].name);
  }

  /** `a/b/.env`, one level deeper, is not. */
  lemma {:induction false} NestedEnvNotFlagged(a: string, b: string)
    requires '/' !in a && '/' !in b
    ensures !IsRootEnv(a + "/" + b + "/.env")
  {
    EnvHasNoSlash();
    SplitNone(a, '/');
    SplitNone(b, '/');
    assert a + "/" + b + "/.env" == a + ['/'] + (b + ['/'] + ".env");
    SplitAround(b, ".env", '/');
    SplitAround(a, b + ['/'] + ".env", '/');
  }

  /** A name that passes the depth-and-basename test ends with `.env`. */
  lemma {:induction false} RootEnvEndsWithEnv(name: string)
    requires IsRootEnv(name)
    ensures EndsWith(name, ".env")
  {
    SplitLast(name, '/');
  }

  /** No extension of the GitHub source's list is an ending of a name that ends with `.env`. */
  lemma {:induction false} EnvNeverKept(e: ZipEntry)
    requires EndsWith(e.name, ".env")
    ensures !Kept(e, GitHub.RelevantExtensions)
  {
    var exts := GitHub.RelevantExtensions;
    forall k | 0 <= k < |exts|
      ensures !EndsWith(e.name, exts[k])
    {
      if EndsWith(e.name, exts[k]) {
        if |exts[k]| <= 4 {
          EndsWithBoth(e.name, ".env", exts[k]);
        } else {
          EndsWithBoth(e.name, exts[k], ".env");
        }
      }
    }
  }

  /** What the read of a kept entry contributes: the file, or `null` when the read failed. */
  function ReadOf(e: ZipEntry): Option<GitHubFile>
  {
    match e.read
    case Some(content) => Some(GitHubFile(e.name, content))
    case None => None
  }

  /** `filePromises`: one read per kept entry, in enumeration order. */
  function Reads(entries: seq<ZipEntry>, relevantExtensions: seq<string>): seq<Option<GitHubFile>>
  {
    if |entries| == 0 then []
    else
      var last := entries[|entries| - 1];
      Reads(entries[..|entries| - 1], relevantExtensions) + (if Kept(last, relevantExtensions) then [ReadOf(last)] else [])
  }

  /** `allFiles.filter(f => f !== null)` */
  function Present(pending: seq<Option<GitHubFile>>): (r: seq<GitHubFile>)
    ensures forall f :: f in r <==> Some(f) in pending
  {
    if |pending| == 0 then []
    else
      var rest := Present(pending[1..]);
      assert forall o :: o in pending <==> o == pending[0] || o in pending[1..];
      match pending[0]
      case Some(f) => [f] + rest
      case None => rest
  }

  lemma {:induction false} PresentAppend(a: seq<Option<GitHubFile>>, b: seq<Option<GitHubFile>>)
    ensures Present(a + b) == Present(a) + Present(b)
  {
    if |a| == 0 {
      assert a + b == b;
    } else {
      assert (a + b)[1..] == a[1..] + b;
      PresentAppend(a[1..], b);
    }
  }

  /** The files returned for the entries. */
  function ZipFiles(entries: seq<ZipEntry>, relevantExtensions: seq<string>): seq<GitHubFile>
  {
    Present(Reads(entries, relevantExtensions))
  }

  /** Some kept entry is a `.env` file at depth at most two. */
  predicate HasRootEnv(entries: seq<ZipEntry>, relevantExtensions: seq<string>)
  {
    exists i :: 0 <= i < |entries| && Kept(entries[i], relevantExtensions) && IsRootEnv(entries[i].name)
  }

  /** The warning the loop leaves behind: one fixed text, however many entries match. */
  function WarningOf(entries: seq<ZipEntry>, relevantExtensions: seq<string>): string
  {
    if HasRootEnv(entries, relevantExtensions) then EnvWarning else ""
  }

  lemma {:induction false} ReadsStep(entries: seq<ZipEntry>, i: nat, relevantExtensions: seq<string>)
    requires i < |entries|
    ensures Reads(entries[..i + 1], relevantExtensions) ==
      Reads(entries[..i], relevantExtensions) + (if Kept(entries[i], relevantExtensions) then [ReadOf(entries[i])] else [])
    ensures HasRootEnv(entries[..i + 1], relevantExtensions) <==>
      HasRootEnv(entries[..i], relevantExtensions) || (Kept(entries[i], relevantExtensions) && IsRootEnv(entries[i].name))
  {
    assert entries[..i + 1][..i] == entries[..i];
    var pre := entries[..i + 1];
    if HasRootEnv(pre, relevantExtensions) {
      var j :| 0 <= j < |pre| && Kept(pre[j], relevantExtensions) && IsRootEnv(pre[j].name);
      if j < i {
        assert entries[..i][j] == pre[j];
      }
    }
    if HasRootEnv(entries[..i], relevantExtensions) {
      var j :| 0 <= j < i && Kept(entries[..i][j], relevantExtensions) && IsRootEnv(entries[..i][j].name);
      assert pre[j] == entries[..i][j];
    }
    if Kept(entries[i], relevantExtensions) && IsRootEnv(entries[i].name) {
      assert pre[i] == entries[i];
    }
  }

  /**
    `extractFilesFromZip` (services/zipService.ts:10-53): the enumeration
    loop updates the warning and collects one read per kept entry; the reads
    that failed are then dropped.
   */
  method ExtractFilesFromZip(fileName: string, archive: Option<seq<ZipEntry>>, relevantExtensions: seq<string>)
    returns (r: Result<RepoContents>)
    ensures archive.None? ==> r == Failure(InvalidZipMessage)
    ensures archive.Some? ==>
      r == Success(RepoContents(ZipFiles(archive.value, relevantExtensions), ArchiveBaseName(fileName),
                                Some(WarningOf(archive.value, relevantExtensions))))
  {
    if archive.None? {
      return Failure(InvalidZipMessage);
    }
    var entries := archive.value;
    var filePromises: seq<Option<GitHubFile>> := [];
    var envFileWarning := "";
    var repoName := if EndsWith(fileName, ".zip") then fileName[..|fileName| - 4] else fileName;
    for i := 0 to |entries|
      invariant filePromises == Reads(entries[..i], relevantExtensions)
      invariant envFileWarning == WarningOf(entries[..i], relevantExtensions)
    {
      ReadsStep(entries, i, relevantExtensions);
      var zipEntry := entries[i];
      if zipEntry.dir || !EndsWithAny(zipEntry.name, relevantExtensions) {
        continue;
      }
      var pathParts := Split(zipEntry.name, '/');
      if |pathParts| <= 2 && pathParts[|pathParts| - 1] == ".env" {
        envFileWarning := EnvWarning;
      }
      var promise := match zipEntry.read
        case Some(content) => Some(GitHubFile(zipEntry.name, content))
        case None => None;
      filePromises := filePromises + [promise];
    }
    assert entries[..|entries|] == entries;
    var files := Present(filePromises);
    r := Success(RepoContents(files, repoName, Some(envFileWarning)));
  }

  /**
    A file is returned exactly when some kept entry was read successfully,
    with that entry's name and text: failed reads leave nothing behind.
   */
  lemma {:induction false} ZipFilesMembers(entries: seq<ZipEntry>, relevantExtensions: seq<string>, f: GitHubFile)
    ensures f in ZipFiles(entries, relevantExtensions) <==>
      exists i :: 0 <= i < |entries| && Kept(entries[i], relevantExtensions) &&
        entries[i].name == f.path && entries[i].read == Some(f.content)
  {
    if |entries| > 0 {
      var n := |entries| - 1;
      var init := entries[..n];
      ZipFilesMembers(init, relevantExtensions, f);
      var tail := if Kept(entries[n], relevantExtensions) then [ReadOf(entries[n])] else [];
      assert Reads(entries, relevantExtensions) == Reads(init, relevantExtensions) + tail;
      PresentAppend(Reads(init, relevantExtensions), tail);
      if exists i :: 0 <= i < n && Kept(init[i], relevantExtensions) && init[i].name == f.path && init[i].read == Some(f.content) {
        var i :| 0 <= i < n && Kept(init[i], relevantExtensions) && init[i].name == f.path && init[i].read == Some(f.content);
        assert entries[i] == init[i];
      }
      if exists i :: 0 <= i < |entries| && Kept(entries[i], relevantExtensions) && entries[i].name == f.path && entries[i].read == Some(f.content) {
        var i :| 0 <= i < |entries| && Kept(entries[i], relevantExtensions) && entries[i].name == f.path && entries[i].read == Some(f.content);
        if i < n {
          assert init[i] == entries[i];
        }
      }
    }
  }

  /** The files come in enumeration order: the result for two runs of entries is the concatenation of their results. */
  lemma {:induction false} ZipFilesAppend(a: seq<ZipEntry>, b: seq<ZipEntry>, relevantExtensions: seq<string>)
    ensures ZipFiles(a + b, relevantExtensions) == ZipFiles(a, relevantExtensions) + ZipFiles(b, relevantExtensions)
  {
    ReadsAppend(a, b, relevantExtensions);
    PresentAppend(Reads(a, relevantExtensions), Reads(b, relevantExtensions));
  }

  lemma {:induction false} ReadsAppend(a: seq<ZipEntry>, b: seq<ZipEntry>, relevantExtensions: seq<string>)
    ensures Reads(a + b, relevantExtensions) == Reads(a, relevantExtensions) + Reads(b, relevantExtensions)
  {
    if |b| == 0 {
      assert a + b == a;
    } else {
      var n := |b| - 1;
      assert (a + b)[..|a + b| - 1] == a + b[..n];
      ReadsAppend(a, b[..n], relevantExtensions);
    }
  }

  /** The warning is non-empty exactly when some kept entry is a `.env` at depth at most two. */
  lemma {:induction false} WarningIffRootEnv(entries: seq<ZipEntry>, relevantExtensions: seq<string>)
    ensures WarningOf(entries, relevantExtensions) != "" <==> HasRootEnv(entries, relevantExtensions)
    ensures WarningOf(entries, relevantExtensions) == "" || WarningOf(entries, relevantExtensions) == EnvWarning
  {
    assert |EnvWarning| > 0;
  }

  /**
    With the extension list of the GitHub source, which has no `.env`, the
    extension filter already drops every `.env` entry, so the warning is
    never raised.
   */
  lemma {:induction false} NoWarningWithGitHubList(entries: seq<ZipEntry>)
    ensures WarningOf(entries, GitHub.RelevantExtensions) == ""
  {
    forall i | 0 <= i < |entries| && IsRootEnv(entries[i].name)
      ensures !Kept(entries[i], GitHub.RelevantExtensions)
    {
      RootEnvEndsWithEnv(entries[i].name);
      EnvNeverKept(entries[i]);
    }
  }
}
