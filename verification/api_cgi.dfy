/** The archive/delete CGI endpoint (`api.py`): it validates the form,
    runs the command-line helper as a subprocess and turns the helper's
    standard output into the JSON response. The subprocess is modelled by
    `RepoManager`, run either as written (progress on standard output) or
    with its progress on standard error. */
module ApiCgi {
  import opened Wrappers
  import Text
  import RepoManager

  /** The `repositories` form field after `json.loads`: a list of names, or
      text that does not decode (which the script treats as `[]`). */
  datatype ParsedRepositories = NameList(names: seq<string>) | Unparseable

  /** The response object: its keys are exactly those of the variant. */
  datatype ApiResponse =
    | Failure(message: string)
    | Archived(message: string, archivePath: string)
    | DeletionProcessed(message: string, results: seq<RepoManager.ItemResult>)

  /** `json.loads` applied to the helper's standard output: a document, or
      the decoder's complaint. */
  datatype Decoded = DecodedDoc(doc: RepoManager.JsonDoc) | DecodeError(message: string)

  const MissingParametersMessage: string := "Missing required parameters: action and repositories"
  const UnknownActionPrefix: string := "Unknown action: "
  const ArchiveFailedPrefix: string := "Error archiving repositories: "
  const DeleteFailedPrefix: string := "Error deleting repositories: "
  const ErrorPrefix: string := "Error: "
  /** The decoder's message when the text does not start with a JSON value. */
  const ExpectingValueMessage: string := "Expecting value: line 1 column 1 (char 0)"
  /** The start of the decoder's message when a JSON value is followed by
      more text; the position it appends is not modelled. */
  const ExtraDataMessage: string := "Extra data"
  const HelperPath: string := "./repo_manager.py"

  /** The message of a processed deletion of `n` names. */
  function DeletedMessage(n: nat): string {
    "Successfully processed deletion of " + Text.NatToString(n) + " repositories"
  }

  /** The message of an archive of `n` names. */
  function ArchivedMessage(n: nat): string {
    "Successfully archived " + Text.NatToString(n) + " repositories"
  }

  function Success(r: ApiResponse): bool {
    !r.Failure?
  }

  /** The keys of the JSON object the endpoint prints. */
  function Keys(r: ApiResponse): (keys: set<string>)
    ensures "success" in keys && "message" in keys
    ensures "archive_path" in keys <==> r.Archived?
    ensures "results" in keys <==> r.DeletionProcessed?
  {
    match r
    case Failure(_) => {"success", "message"}
    case Archived(_, _) => {"success", "message", "archive_path"}
    case DeletionProcessed(_, _) => {"success", "message", "results"}
  }

  /** Progress text is never JSON, so standard output decodes exactly when
      it is one document and nothing else. */
  function DecodeStdout(stdout: seq<RepoManager.OutLine>): (d: Decoded)
    ensures d.DecodedDoc? <==> |stdout| == 1 && stdout[0].Doc?
    ensures d.DecodedDoc? ==> stdout == [RepoManager.Doc(d.doc)]
    ensures d.DecodeError? && (|stdout| == 0 || stdout[0].Line?) ==> d.message == ExpectingValueMessage
  {
    if |stdout| == 0 || stdout[0].Line? then DecodeError(ExpectingValueMessage)
    else if |stdout| == 1 then DecodedDoc(stdout[0].doc)
    else DecodeError(ExtraDataMessage)
  }

  /** The text of the helper's standard error. */
  function StderrText(stderr: seq<string>): string {
    Text.Join(stderr, '\n')
  }

  /** The helper's command line for `action` and `names`. */
  function HelperArgv(action: string, names: seq<string>): (argv: seq<string>)
    ensures |argv| == 3 && argv[1] == action
  {
    [HelperPath, action, Text.Join(names, RepoManager.Separator)]
  }

  /** `handle_archive`, with the helper run quietly or as written. */
  function HandleArchive(names: seq<string>, env: RepoManager.Environment, quiet: bool): (r: ApiResponse)
    ensures var run := RepoManager.MainWith(HelperArgv("archive", names), env, quiet);
            run.exitCode != 0 ==> r == Failure(ArchiveFailedPrefix + StderrText(run.stderr))
    ensures r.Archived? ==> r.message == ArchivedMessage(|names|)
    ensures !r.DeletionProcessed?
  {
    var run := RepoManager.MainWith(HelperArgv("archive", names), env, quiet);
    if run.exitCode != 0 then Failure(ArchiveFailedPrefix + StderrText(run.stderr))
    else match DecodeStdout(run.stdout)
      case DecodeError(msg) => Failure(ErrorPrefix + msg)
      case DecodedDoc(doc) =>
        var path := if doc.ArchiveDoc? then doc.archivePath else "";
        Archived(ArchivedMessage(|names|), path)
  }

  /** `handle_delete`, with the helper run quietly or as written. */
  function HandleDelete(names: seq<string>, env: RepoManager.Environment, quiet: bool): (r: ApiResponse)
    ensures var run := RepoManager.MainWith(HelperArgv("delete", names), env, quiet);
            run.exitCode != 0 ==> r == Failure(DeleteFailedPrefix + StderrText(run.stderr))
    ensures r.DeletionProcessed? ==> r.message == DeletedMessage(|names|)
    ensures !r.Archived?
  {
    var run := RepoManager.MainWith(HelperArgv("delete", names), env, quiet);
    if run.exitCode != 0 then Failure(DeleteFailedPrefix + StderrText(run.stderr))
    else match DecodeStdout(run.stdout)
      case DecodeError(msg) => Failure(ErrorPrefix + msg)
      case DecodedDoc(doc) =>
        var results := if doc.DeleteDoc? then doc.results else [];
        DeletionProcessed(DeletedMessage(|names|), results)
  }

  /** `main`: `action` is the form field ("" when absent). */
  function MainWith(action: string, repositories: ParsedRepositories, env: RepoManager.Environment, quiet: bool): (r: ApiResponse)
    ensures action == "" || repositories.Unparseable? || repositories.names == [] ==> r == Failure(MissingParametersMessage)
    ensures action != "" && repositories.NameList? && repositories.names != [] && action !in {"archive", "delete"} ==>
              r == Failure(UnknownActionPrefix + action)
    ensures r.Archived? ==> action == "archive"
    ensures r.DeletionProcessed? ==> action == "delete"
  {
    if action == "" || repositories.Unparseable? || repositories.names == [] then Failure(MissingParametersMessage)
    else if action == "archive" then HandleArchive(repositories.names, env, quiet)
    else if action == "delete" then HandleDelete(repositories.names, env, quiet)
    else Failure(UnknownActionPrefix + action)
  }

  /** The endpoint with the helper as written. */
  function MainAsWritten(action: string, repositories: ParsedRepositories, env: RepoManager.Environment): (r: ApiResponse)
    ensures !Success(r)
  {
    MainWith(action, repositories, env, false)
  }

  /** The endpoint with the helper's progress on standard error. */
  function Main(action: string, repositories: ParsedRepositories, env: RepoManager.Environment): (r: ApiResponse)
    ensures r.Archived? ==> action == "archive"
    ensures r.DeletionProcessed? ==> action == "delete"
  {
    MainWith(action, repositories, env, true)
  }

  /** As written, a request the helper completes still comes back as a
      failure carrying the decoder's complaint. */
  lemma CompletedDeleteReportedAsError(names: seq<string>, env: RepoManager.Environment)
    requires names != []
    ensures MainAsWritten("delete", NameList(names), env) == Failure(ErrorPrefix + ExpectingValueMessage)
  {
    var run := RepoManager.MainAsWritten(HelperArgv("delete", names), env);
    assert run.exitCode == 0;
  }

  /** With the progress moved off standard output, a delete request is
      answered with the helper's results for the names it split off the
      joined list, and counts the names it was sent. */
  lemma DeleteResponse(names: seq<string>, env: RepoManager.Environment)
    requires names != []
    ensures var split := Text.Split(Text.Join(names, RepoManager.Separator), RepoManager.Separator);
            Main("delete", NameList(names), env)
            == DeletionProcessed(DeletedMessage(|names|),
                                 RepoManager.DeleteRepositories(split, env.delete).0)
  {
    assert "delete" != "archive";
    assert Main("delete", NameList(names), env) == HandleDelete(names, env, true);
    QuietDeleteHandled(names, env);
  }

  lemma QuietDeleteHandled(names: seq<string>, env: RepoManager.Environment)
    ensures var split := Text.Split(Text.Join(names, RepoManager.Separator), RepoManager.Separator);
            HandleDelete(names, env, true)
            == DeletionProcessed(DeletedMessage(|names|),
                                 RepoManager.DeleteRepositories(split, env.delete).0)
  {
    RepoManager.LowerCaseActions();
    RepoManager.DeleteRunReportsEveryName(HelperArgv("delete", names), env);
  }

  /** When no name holds the separator, the results are one per requested
      name, in order; every name is attempted whatever happens to the
      others. */
  lemma {:induction false} DeleteReturnsEveryResult(names: seq<string>, env: RepoManager.Environment)
    requires names != []
    requires forall i :: 0 <= i < |names| ==> Text.NoSeparator(names[i], RepoManager.Separator)
    ensures var r := Main("delete", NameList(names), env);
            && r == DeletionProcessed(DeletedMessage(|names|),
                                      RepoManager.DeleteRepositories(names, env.delete).0)
            && |r.results| == |names|
            && (forall i :: 0 <= i < |names| ==> r.results[i].name == names[i])
  {
    Text.SplitJoinRoundTrip(names, RepoManager.Separator);
    DeleteResponse(names, env);
  }

  /** With the progress moved off standard output, an archive request
      succeeds exactly when every file-system step of the helper returns
      for the names it split off the joined list, and then names the
      archive the helper wrote; otherwise the answer carries what the
      helper wrote to standard error: its progress and its traceback. */
  lemma {:induction false} ArchiveReturnsPath(names: seq<string>, env: RepoManager.Environment)
    requires names != []
    ensures var r := Main("archive", NameList(names), env);
            var split := Text.Split(Text.Join(names, RepoManager.Separator), RepoManager.Separator);
            && (Success(r) <==> RepoManager.ArchiveSucceeds(split, env))
            && (!Success(r) ==> r == Failure(ArchiveFailedPrefix + StderrText(RepoManager.ArchiveRepositories(split, env).lines + [RepoManager.ArchiveRepositories(split, env).traceback])))
            && (r.Archived? ==> r.archivePath == RepoManager.ArchivePath(env.archiveDir, env.timestamp))
  {
    QuietArchiveHandled(names, env);
  }

  /** A readable data file is not enough: when `../archives` cannot be
      created, the request fails with the helper's traceback alone, since
      nothing was printed before it. */
  lemma UnwritableArchiveDirFails(names: seq<string>, env: RepoManager.Environment)
    requires names != [] && env.data.Some? && !env.fs.makeArchiveDir
    ensures Main("archive", NameList(names), env) == Failure(ArchiveFailedPrefix + RepoManager.ArchiveDirTraceback)
  {
    ArchiveReturnsPath(names, env);
    assert StderrText([RepoManager.ArchiveDirTraceback]) == RepoManager.ArchiveDirTraceback;
  }

  lemma QuietArchiveHandled(names: seq<string>, env: RepoManager.Environment)
    ensures var split := Text.Split(Text.Join(names, RepoManager.Separator), RepoManager.Separator);
            && (Success(HandleArchive(names, env, true)) <==> RepoManager.ArchiveSucceeds(split, env))
            && (!Success(HandleArchive(names, env, true)) ==>
                  HandleArchive(names, env, true) == Failure(ArchiveFailedPrefix + StderrText(RepoManager.ArchiveRepositories(split, env).lines + [RepoManager.ArchiveRepositories(split, env).traceback])))
    ensures HandleArchive(names, env, true).Archived? ==>
              HandleArchive(names, env, true).archivePath == RepoManager.ArchivePath(env.archiveDir, env.timestamp)
  {
    RepoManager.LowerCaseActions();
    var run := RepoManager.MainWith(HelperArgv("archive", names), env, true);
    var split := Text.Split(Text.Join(names, RepoManager.Separator), RepoManager.Separator);
    assert run.exitCode == 0 <==> RepoManager.ArchiveSucceeds(split, env);
  }

  /** The response objects have the shape the format test expects: a
      successful archive carries `success`, `message` and `archive_path`, a
      processed deletion `success`, `message` and `results`. */
  lemma ResponseKeys(action: string, repositories: ParsedRepositories, env: RepoManager.Environment)
    ensures var r := Main(action, repositories, env);
            && (r.Archived? ==> Keys(r) == {"success", "message", "archive_path"})
            && (r.DeletionProcessed? ==> Keys(r) == {"success", "message", "results"})
            && (!Success(r) ==> Keys(r) == {"success", "message"})
  {
  }

  /** A name holding the separator reaches the helper as two names, so the
      results list is longer than the count the message reports. */
  lemma CommaInNameSplitsRequest(env: RepoManager.Environment)
    ensures var r := Main("delete", NameList(["a,b"]), env);
            && r.DeletionProcessed?
            && r.message == DeletedMessage(1)
            && |r.results| == 2
  {
    SplitsIntoTwo();
    DeleteResponse(["a,b"], env);
  }

  lemma SplitsIntoTwo()
    ensures |Text.Split(Text.Join(["a,b"], RepoManager.Separator), RepoManager.Separator)| == 2
  {
    Text.SplitPlain("b", ',');
    Text.SplitPiece("a", ',', "b");
    assert Text.Join(["a,b"], ',') == "a" + [','] + "b";
  }
}
