/** The command-line helper `repo_manager.py`: `archive` clones the named
    repositories and zips them, `delete` deletes them one by one. Its
    standard output is a list of lines, where one line may be the JSON
    result document. `gh`, the data file, the file-system calls of the
    archive and the clock are oracles. */
module RepoManager {
  import opened Wrappers
  import Text
  import Seqs

  /** One entry of the delete results. */
  datatype ItemResult = ItemResult(name: string, success: bool, error: Option<string>)

  /** The JSON document `main` prints. */
  datatype JsonDoc =
    | ArchiveDoc(archivePath: string, repositories: seq<string>)
    | DeleteDoc(results: seq<ItemResult>)

  /** A line of standard output: free text or a JSON document. */
  datatype OutLine = Line(text: string) | Doc(doc: JsonDoc)

  /** A finished run of the script. */
  datatype Run = Run(exitCode: int, stdout: seq<OutLine>, stderr: seq<string>)

  datatype DeleteAttempt = Deleted | DeleteRefused(stderr: string)
  datatype CloneAttempt = Cloned | CloneFailed(stderr: string)

  /** One record of the data file: only name and url are read. */
  datatype RepoUrl = RepoUrl(name: string, url: string)

  /** Whether each file-system call of `archive_repositories` returns or
      raises: creating `../archives`, creating the temporary directory,
      removing a cloned repository's `.git` directory (by name) and writing
      the zip. */
  datatype ArchiveFs = ArchiveFs(
    makeArchiveDir: bool,
    makeTempDir: bool,
    stripGit: string -> bool,
    makeZip: bool)

  /** Everything the script consults besides its arguments. */
  datatype Environment = Environment(
    delete: string -> DeleteAttempt,
    data: Option<seq<RepoUrl>>,
    clone: (string, string) -> CloneAttempt,
    fs: ArchiveFs,
    tempDir: string,
    archiveDir: string,
    timestamp: string)

  const Usage: string := "Usage: python repo_manager.py [archive|delete] repo1,repo2,repo3..."
  const Separator: char := ','
  /** Stands for the text of the `CalledProcessError` that is printed. */
  const FailedCommandText: string := "Command returned non-zero exit status"

  /** The traceback lines of the exceptions that end an archive run; each
      stands for the real traceback of that call. */
  const ArchiveDirTraceback: string := "Traceback: os.makedirs could not create the archive directory"
  const TempDirTraceback: string := "Traceback: the temporary directory could not be created"
  const DataTraceback: string := "Traceback: the data file could not be read"
  const StripGitTraceback: string := "Traceback: shutil.rmtree could not remove a .git directory"
  const ZipTraceback: string := "Traceback: shutil.make_archive could not write the archive"

  /** `delete_repositories`: the results and the progress lines printed. */
  function DeleteRepositories(names: seq<string>, delete: string -> DeleteAttempt): (r: (seq<ItemResult>, seq<string>))
    ensures |r.0| == |names|
    ensures forall i :: 0 <= i < |names| ==> r.0[i].name == names[i]
    ensures forall i :: 0 <= i < |names| ==> (r.0[i].success <==> delete(names[i]).Deleted?)
    ensures forall i :: 0 <= i < |names| ==> (r.0[i].error.Some? <==> !r.0[i].success)
    ensures forall i :: 0 <= i < |names| && delete(names[i]).DeleteRefused? ==> r.0[i].error == Some(delete(names[i]).stderr)
    ensures |names| > 0 ==> |r.1| > 0
    decreases |names|
  {
    if |names| == 0 then ([], [])
    else
      var name := names[0];
      var (item, lines) :=
        match delete(name)
        case Deleted => (ItemResult(name, true, None), ["Successfully deleted " + name])
        case DeleteRefused(err) =>
          (ItemResult(name, false, Some(err)), ["Error deleting " + name + ": " + FailedCommandText, "STDERR: " + err]);
      var (rest, restLines) := DeleteRepositories(names[1..], delete);
      ([item] + rest, ["Deleting repository " + name + "..."] + lines + restLines)
  }

  /** One refusal does not stop the rest: every name is attempted and the
      failures are counted exactly. */
  lemma DeleteCountsRefusals(names: seq<string>, delete: string -> DeleteAttempt)
    ensures var results := DeleteRepositories(names, delete).0;
            Seqs.Count(results, (x: ItemResult) => !x.success) == Seqs.Count(names, (n: string) => delete(n).DeleteRefused?)
  {
    var results := DeleteRepositories(names, delete).0;
    CountAlongside(results, names, (x: ItemResult) => !x.success, (n: string) => delete(n).DeleteRefused?);
  }

  lemma {:induction false} CountAlongside<A, B>(a: seq<A>, b: seq<B>, p: A -> bool, q: B -> bool)
    requires |a| == |b|
    requires forall i :: 0 <= i < |a| ==> p(a[i]) == q(b[i])
    ensures Seqs.Count(a, p) == Seqs.Count(b, q)
    decreases |a|
  {
    if |a| > 0 {
      CountAlongside(a[1..], b[1..], p, q);
    }
  }

  /** `{repo['name']: repo['url'] for repo in repos}`: a later record with
      the same name wins. */
  function UrlIndex(data: seq<RepoUrl>): (m: map<string, string>)
    ensures forall r :: r in data ==> r.name in m
    ensures forall n :: n in m ==> exists r :: r in data && r.name == n && r.url == m[n]
    ensures |data| > 0 ==> m[data[|data| - 1].name] == data[|data| - 1].url
    decreases |data|
  {
    if |data| == 0 then map[]
    else
      var last := data[|data| - 1];
      var m := UrlIndex(data[..|data| - 1])[last.name := last.url];
      assert forall r :: r in data ==> r in data[..|data| - 1] || r == last;
      m
  }

  /** A requested name whose clone the loop completes: the data file knows
      it and `gh` cloned it. */
  predicate ClonedOk(n: string, urls: map<string, string>, clone: (string, string) -> CloneAttempt) {
    n in urls && clone(urls[n], n).Cloned?
  }

  /** Every completed clone among `names` has its `.git` directory removed
      without raising. */
  predicate StripsAll(names: seq<string>, urls: map<string, string>, clone: (string, string) -> CloneAttempt,
                      stripGit: string -> bool)
  {
    forall n :: n in names && ClonedOk(n, urls, clone) ==> stripGit(n)
  }

  /** The clone loop's outcome: the names that reach the archive, the lines
      printed, and whether an exception other than `CalledProcessError`
      ended the loop (no name reaches an archive then). */
  datatype CloneRun = CloneRun(cloned: seq<string>, lines: seq<string>, crashed: bool)

  /** The clone loop of `archive_repositories`: names the data file does not
      know are skipped with a warning, a failed clone is reported and the
      loop goes on, and a `.git` removal that raises escapes the `except`
      and ends the script. */
  function CloneAll(names: seq<string>, urls: map<string, string>, clone: (string, string) -> CloneAttempt,
                    stripGit: string -> bool): (r: CloneRun)
    ensures Seqs.IsSubsequence(r.cloned, names)
    ensures r.crashed <==> !StripsAll(names, urls, clone, stripGit)
    ensures forall n :: n in r.cloned ==> n in names && ClonedOk(n, urls, clone)
    ensures !r.crashed ==> forall n :: n in names && ClonedOk(n, urls, clone) ==> n in r.cloned
    ensures r.crashed ==> r.cloned == [] && |r.lines| > 0
    decreases |names|
  {
    if |names| == 0 then CloneRun([], [], false)
    else
      var name := names[0];
      assert names == [name] + names[1..];
      if name !in urls then
        var rest := CloneAll(names[1..], urls, clone, stripGit);
        Seqs.SubsequenceOfTail(rest.cloned, names);
        rest.(lines := ["Warning: Repository " + name + " not found in data"] + rest.lines)
      else
        var cloning := "Cloning " + name + " from " + urls[name] + "...";
        match clone(urls[name], name)
        case Cloned =>
          if !stripGit(name) then
            CloneRun([], [cloning, "Successfully cloned " + name], true)
          else
            var rest := CloneAll(names[1..], urls, clone, stripGit);
            if rest.crashed then rest.(lines := [cloning, "Successfully cloned " + name] + rest.lines)
            else CloneRun([name] + rest.cloned, [cloning, "Successfully cloned " + name] + rest.lines, false)
        case CloneFailed(err) =>
          var rest := CloneAll(names[1..], urls, clone, stripGit);
          Seqs.SubsequenceOfTail(rest.cloned, names);
          rest.(lines := [cloning, "Error cloning " + name + ": " + FailedCommandText, "STDERR: " + err] + rest.lines)
  }

  /** The path `archive_repositories` returns. */
  function ArchivePath(archiveDir: string, timestamp: string): string {
    archiveDir + "/github_repos_archive_" + timestamp + ".zip"
  }

  /** How `archive_repositories` ends: it returns the archive path, or an
      exception escapes after the lines printed so far. */
  datatype ArchiveRun =
    | ArchiveDone(path: string, cloned: seq<string>, lines: seq<string>)
    | ArchiveCrashed(lines: seq<string>, traceback: string)

  /** Every call of `archive_repositories` that can raise returns: both
      directories are created, the data file is read, every `.git` removal
      succeeds and the zip is written. */
  predicate ArchiveSucceeds(names: seq<string>, env: Environment) {
    && env.fs.makeArchiveDir && env.fs.makeTempDir && env.data.Some?
    && StripsAll(names, UrlIndex(env.data.value), env.clone, env.fs.stripGit)
    && env.fs.makeZip
  }

  /** `archive_repositories`: the archive path, the names archived and the
      progress lines, or the lines printed before an exception ended the
      script. */
  function ArchiveRepositories(names: seq<string>, env: Environment): (r: ArchiveRun)
    ensures r.ArchiveDone? <==> ArchiveSucceeds(names, env)
    ensures !env.fs.makeArchiveDir ==> r == ArchiveCrashed([], ArchiveDirTraceback)
    ensures env.fs.makeArchiveDir && !env.fs.makeTempDir ==> r == ArchiveCrashed([], TempDirTraceback)
    ensures env.fs.makeArchiveDir && env.fs.makeTempDir ==>
              |r.lines| > 0 && r.lines[0] == "Created temporary directory: " + env.tempDir
    ensures env.fs.makeArchiveDir && env.fs.makeTempDir && env.data.None? ==> r.ArchiveCrashed? && r.traceback == DataTraceback
    ensures r.ArchiveDone? ==> r.path == ArchivePath(env.archiveDir, env.timestamp)
    ensures r.ArchiveDone? ==> forall n :: n in r.cloned <==> n in names && ClonedOk(n, UrlIndex(env.data.value), env.clone)
  {
    var started := "Created temporary directory: " + env.tempDir;
    if !env.fs.makeArchiveDir then ArchiveCrashed([], ArchiveDirTraceback)
    else if !env.fs.makeTempDir then ArchiveCrashed([], TempDirTraceback)
    else match env.data
      case None => ArchiveCrashed([started], DataTraceback)
      case Some(data) =>
        var run := CloneAll(names, UrlIndex(data), env.clone, env.fs.stripGit);
        if run.crashed then ArchiveCrashed([started] + run.lines, StripGitTraceback)
        else
          var path := ArchivePath(env.archiveDir, env.timestamp);
          var zipping := [started] + run.lines + ["Creating archive " + path + "..."];
          if !env.fs.makeZip then ArchiveCrashed(zipping, ZipTraceback)
          else ArchiveDone(path, run.cloned, zipping + ["Archive created successfully: " + path])
  }

  /** Where the progress lines go. */
  function Emit(progress: seq<string>, quiet: bool): (r: (seq<OutLine>, seq<string>))
    ensures quiet ==> r.0 == [] && r.1 == progress
    ensures !quiet ==> |r.0| == |progress| && r.1 == []
    ensures !quiet ==> forall i :: 0 <= i < |progress| ==> r.0[i] == Line(progress[i])
  {
    if quiet then ([], progress) else (seq(|progress|, i requires 0 <= i < |progress| => Line(progress[i])), [])
  }

  /** `main` on `argv` (the script name first). With `quiet` the progress
      lines go to standard error, so standard output is the JSON document
      alone; without it they precede the document, as the script is
      written. */
  function MainWith(argv: seq<string>, env: Environment, quiet: bool): (r: Run)
    ensures |argv| < 3 ==> r == Run(1, [Line(Usage)], [])
    ensures |argv| >= 3 && Text.ToLower(argv[1]) !in {"archive", "delete"} ==>
              r == Run(1, [Line("Unknown action: " + Text.ToLower(argv[1])), Line(Usage)], [])
    ensures r.exitCode == 0 <==> |argv| >= 3 && (Text.ToLower(argv[1]) == "delete" ||
                                 (Text.ToLower(argv[1]) == "archive" && ArchiveSucceeds(Text.Split(argv[2], Separator), env)))
    ensures r.exitCode == 0 ==> |r.stdout| > 0 && r.stdout[|r.stdout| - 1].Doc?
    ensures quiet && r.exitCode == 0 ==> |r.stdout| == 1
    ensures !quiet && r.exitCode == 0 ==> |r.stdout| > 1 && r.stdout[0].Line?
  {
    if |argv| < 3 then Run(1, [Line(Usage)], [])
    else
      var action := Text.ToLower(argv[1]);
      var names := Text.Split(argv[2], Separator);
      if action == "archive" then
        match ArchiveRepositories(names, env)
        case ArchiveCrashed(progress, traceback) =>
          var (out, err) := Emit(progress, quiet);
          Run(1, out, err + [traceback])
        case ArchiveDone(path, _, progress) =>
          var (out, err) := Emit(progress, quiet);
          Run(0, out + [Doc(ArchiveDoc(path, names))], err)
      else if action == "delete" then
        var (results, progress) := DeleteRepositories(names, env.delete);
        var (out, err) := Emit(progress, quiet);
        Run(0, out + [Doc(DeleteDoc(results))], err)
      else
        Run(1, [Line("Unknown action: " + action), Line(Usage)], [])
  }

  /** The script as written. */
  function MainAsWritten(argv: seq<string>, env: Environment): (r: Run)
    ensures r.exitCode == 0 ==> |r.stdout| > 1 && r.stdout[0].Line?
  {
    MainWith(argv, env, false)
  }

  /** The script with its progress on standard error. */
  function Main(argv: seq<string>, env: Environment): (r: Run)
    ensures r.exitCode == 0 ==> |r.stdout| == 1 && r.stdout[0].Doc?
  {
    MainWith(argv, env, true)
  }

  /** The two actions are already in lower case. */
  lemma LowerCaseActions()
    ensures Text.ToLower("delete") == "delete"
    ensures Text.ToLower("archive") == "archive"
  {
  }

  /** A delete run reports success for the whole batch and one result per
      name it was given, whatever `gh` answered; the "no repositories"
      exit cannot happen because splitting yields at least one name. */
  lemma DeleteRunReportsEveryName(argv: seq<string>, env: Environment)
    requires |argv| >= 3 && Text.ToLower(argv[1]) == "delete"
    ensures var r := Main(argv, env);
            var names := Text.Split(argv[2], Separator);
            && |names| >= 1
            && r.exitCode == 0
            && r.stdout == [Doc(DeleteDoc(DeleteRepositories(names, env.delete).0))]
  {
  }
}
