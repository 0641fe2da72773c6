/** The refresh CGI script (`refresh.py`): list the account's repositories
    with the `gh` command-line client, normalise each entry the Python way,
    write the dashboard's data file and answer with a JSON result. The
    subprocess is an oracle. */
module RefreshCgi {
  import opened Wrappers
  import opened Repos
  import Text
  import Normalize

  /** One element of `languages`: the `node.name` it carries, or `None`
      when the node or its name is missing. */
  datatype LanguageEntry = LanguageEntry(nodeName: Option<string>)

  /** One element of `gh repo list --json ...`; `languages` is `None` when
      the key is missing or null. */
  datatype GhRepo = GhRepo(
    name: string,
    url: string,
    description: Option<string>,
    isArchived: bool,
    diskUsage: nat,
    visibility: Visibility,
    createdAt: int,
    updatedAt: int,
    pushedAt: int,
    languages: Option<seq<LanguageEntry>>)

  /** The subprocess: its parsed output, a non-zero exit with its stderr, or
      output that does not parse or lacks a field. */
  datatype GhResult = GhListed(repos: seq<GhRepo>) | GhExitFailed(stderr: string) | GhOutputBroken(error: string)

  datatype RefreshResult =
    | RefreshOk(message: string, count: nat, timestamp: string)
    | RefreshFailed(message: string)

  /** A file-system call: done, or the `OSError` text it raised. */
  datatype FsOutcome = FsOk | FsFailed(error: string)

  /** The two file-system calls `fetch_repository_data` makes: creating the
      temporary directory (before `gh` runs) and writing the data file. */
  datatype FileSystem = FileSystem(makeTempDir: FsOutcome, writeData: FsOutcome)

  /** The outside effects of one request: whether `gh` ran and what was
      written to the data file. */
  datatype RefreshEffects = RefreshEffects(ranGh: bool, written: Option<seq<Repository>>)

  const MissingTokenMessage: string := "GitHub personal access token not found in environment variables"
  const MissingActionMessage: string := "Missing required parameter: action"
  const UnknownActionPrefix: string := "Unknown action: "
  const RefreshAction: string := "refresh"

  /** The first listed language's name, or `"None"` when the list is
      missing or empty or the first entry has no name. */
  function FirstLanguage(languages: Option<seq<LanguageEntry>>): (lang: string)
    ensures languages.None? || languages.value == [] ==> lang == NoLanguage
    ensures languages.Some? && |languages.value| > 0 ==> lang == languages.value[0].nodeName.GetOr(NoLanguage)
  {
    if languages.Some? && |languages.value| > 0 then languages.value[0].nodeName.GetOr(NoLanguage)
    else NoLanguage
  }

  /** The script reads only the first listed language: whatever follows it,
      however many bytes it holds, does not change the choice. */
  lemma FirstLanguageIgnoresLater(first: LanguageEntry, later: seq<LanguageEntry>)
    ensures FirstLanguage(Some([first] + later)) == FirstLanguage(Some([first]))
    ensures FirstLanguage(Some([first] + later)) == first.nodeName.GetOr(NoLanguage)
  {
  }

  /** One loop iteration of `fetch_repository_data`. */
  function NormalizeGhRepo(g: GhRepo, now: int): (r: Repository)
    ensures r.name == g.name && r.url == g.url && r.description == g.description
    ensures r.visibility == g.visibility && r.isArchived == g.isArchived && r.diskUsage == g.diskUsage
    ensures r.pushedAt == g.pushedAt && r.createdAt == g.createdAt && r.updatedAt == g.updatedAt
    ensures ActivityDerived(r, now)
    ensures r.primaryLanguage == FirstLanguage(g.languages)
  {
    var days := DaysSince(now, g.pushedAt);
    Repository(g.name, g.url, g.description, g.isArchived, g.diskUsage, g.visibility,
               g.createdAt, g.updatedAt, g.pushedAt, days, days > InactiveAfterDays, FirstLanguage(g.languages))
  }

  /** The `website_data` list: one entry per listed repository, in order. */
  function WebsiteData(repos: seq<GhRepo>, now: int): (out: seq<Repository>)
    ensures |out| == |repos|
    ensures forall i :: 0 <= i < |repos| ==> out[i] == NormalizeGhRepo(repos[i], now)
  {
    seq(|repos|, i requires 0 <= i < |repos| => NormalizeGhRepo(repos[i], now))
  }

  /** A written entry is inactive exactly when its last push lies at least
      181 full days back. */
  lemma WebsiteDataInactiveThreshold(repos: seq<GhRepo>, now: int)
    ensures forall i :: 0 <= i < |repos| ==> (WebsiteData(repos, now)[i].inactive <==> now - repos[i].pushedAt >= (InactiveAfterDays + 1) * MsPerDay)
  {
    forall i | 0 <= i < |repos|
      ensures WebsiteData(repos, now)[i].inactive <==> now - repos[i].pushedAt >= (InactiveAfterDays + 1) * MsPerDay
    {
      InactiveThreshold(now, repos[i].pushedAt);
    }
  }

  /** The two normalisers disagree on the primary language: the page picks
      the language with the most bytes, this script the first one listed. */
  lemma PrimaryLanguageVariantsDiffer()
    ensures var entries := [Normalize.LanguageBytes("Shell", 10), Normalize.LanguageBytes("Go", 900)];
            && Normalize.PrimaryLanguage(entries) == "Go"
            && FirstLanguage(Some([LanguageEntry(Some("Shell")), LanguageEntry(Some("Go"))])) == "Shell"
  {
    var entries := [Normalize.LanguageBytes("Shell", 10), Normalize.LanguageBytes("Go", 900)];
    Normalize.PrimaryLanguageIsLargest(entries);
  }

  /** `fetch_repository_data`. `token` is `GH_PAT_TOKEN` ("" counts as
      missing), `fs` the outcome of its two file-system calls, `stamp` the
      formatted clock. Any exception other than a failed `gh` becomes
      `"Error: "` and its text. */
  function FetchRepositoryData(token: Option<string>, fs: FileSystem, gh: GhResult, now: int, stamp: string): (r: (RefreshResult, RefreshEffects))
    ensures token.None? || token.value == "" ==> r == (RefreshFailed(MissingTokenMessage), RefreshEffects(false, None))
    ensures r.1.ranGh <==> token.Some? && token.value != "" && fs.makeTempDir.FsOk?
    ensures token.Some? && token.value != "" && fs.makeTempDir.FsFailed? ==>
              r == (RefreshFailed("Error: " + fs.makeTempDir.error), RefreshEffects(false, None))
    ensures r.1.ranGh && gh.GhListed? && fs.writeData.FsFailed? ==> r.0 == RefreshFailed("Error: " + fs.writeData.error)
    ensures r.0.RefreshOk? <==> r.1.ranGh && gh.GhListed? && fs.writeData.FsOk?
    ensures r.0.RefreshOk? ==> r.0.count == |gh.repos| && r.1.written == Some(WebsiteData(gh.repos, now))
    ensures r.1.written.Some? <==> r.0.RefreshOk?
  {
    if token.None? || token.value == "" then (RefreshFailed(MissingTokenMessage), RefreshEffects(false, None))
    else if fs.makeTempDir.FsFailed? then (RefreshFailed("Error: " + fs.makeTempDir.error), RefreshEffects(false, None))
    else match gh
      case GhExitFailed(stderr) => (RefreshFailed("Error fetching repository data: " + stderr), RefreshEffects(true, None))
      case GhOutputBroken(error) => (RefreshFailed("Error: " + error), RefreshEffects(true, None))
      case GhListed(repos) =>
        var data := WebsiteData(repos, now);
        match fs.writeData
        case FsFailed(error) => (RefreshFailed("Error: " + error), RefreshEffects(true, None))
        case FsOk =>
          var msg := "Successfully fetched data for " + Text.NatToString(|repos|) + " repositories";
          (RefreshOk(msg, |repos|, stamp), RefreshEffects(true, Some(data)))
  }

  /** `main`: the `action` form field ("" when absent) picks the handler. */
  function Main(action: string, token: Option<string>, fs: FileSystem, gh: GhResult, now: int, stamp: string): (r: (RefreshResult, RefreshEffects))
    ensures action == "" ==> r == (RefreshFailed(MissingActionMessage), RefreshEffects(false, None))
    ensures action != "" && action != RefreshAction ==> r == (RefreshFailed(UnknownActionPrefix + action), RefreshEffects(false, None))
    ensures r.1.ranGh ==> action == RefreshAction
  {
    if action == "" then (RefreshFailed(MissingActionMessage), RefreshEffects(false, None))
    else if action == RefreshAction then FetchRepositoryData(token, fs, gh, now, stamp)
    else (RefreshFailed(UnknownActionPrefix + action), RefreshEffects(false, None))
  }

  /** Only a refresh with a token, a temporary directory, a clean listing
      and a successful write produces the data file, and then the reported
      count is the number of entries written. */
  lemma WrittenCountMatches(action: string, token: Option<string>, fs: FileSystem, gh: GhResult, now: int, stamp: string)
    ensures var r := Main(action, token, fs, gh, now, stamp);
            r.1.written.Some? <==> action == RefreshAction && token.Some? && token.value != ""
                                   && fs.makeTempDir.FsOk? && gh.GhListed? && fs.writeData.FsOk?
    ensures var r := Main(action, token, fs, gh, now, stamp);
            r.0.RefreshOk? ==> r.1.written.Some? && r.0.count == |r.1.written.value|
  {
  }
}
