/** The report route (`POST /api/report`): parse the request, check the
    OpenAI key, fetch the repositories, restrict them to the selection, cap
    the analysed list at the five most recently updated, compute statistics
    over every candidate, call the model and map its errors. The repository
    endpoint and the model are oracles. */
module Report {
  import opened Wrappers
  import opened Repos
  import Text
  import Seqs
  import Summary

  /** The decoded request body: unparseable, the JSON literal `null`, or an
      object whose `selectedRepositories` is an array (`Some`) or anything
      else (`None`); absent fields take their defaults. */
  datatype ReportRequest =
    | MalformedJson
    | NullBody
    | ReportRequest(selection: Option<seq<string>>, analyzeAll: bool)

  /** The repositories endpoint: an array, or a thrown error (a non-2xx
      status, a network failure, or a non-array body). */
  datatype RepoFetch = RepoList(repos: seq<Repository>) | RepoFetchFailed(message: string)

  /** The chat completion: its content, a reply without a first choice, or
      an error carrying an HTTP `status` (0 when absent) and a `message`
      ("" when absent). */
  datatype LlmReply = Completion(content: string) | NoChoices | LlmFailure(status: int, message: string)

  /** The statistics the prompt carries. */
  datatype Statistics = Statistics(
    totalRepos: nat, privateRepos: nat, publicRepos: nat, archivedRepos: nat, inactiveRepos: nat,
    topLanguages: seq<Summary.LanguageCount>)

  /** What the model is asked about. */
  datatype Prompt = Prompt(stats: Statistics, note: string, analysed: seq<Repository>)

  datatype ReportMetadata = ReportMetadata(generatedAt: int, repositoryCount: nat, analyzedCount: nat, inactiveCount: nat)

  datatype ReportResponse =
    | ReportOk(report: string, metadata: ReportMetadata)
    | ReportFailed(status: int, message: string)

  /** Outside calls made while answering. */
  datatype ReportEffects = ReportEffects(fetchedRepositories: bool, calledModel: bool)

  const MaxReposToAnalyze: nat := 5
  const MaxTopLanguages: nat := 5

  const InvalidJsonMessage: string := "Invalid JSON in request body"
  const MissingKeyMessage: string := "OpenAI API key is not configured in environment variables"
  const NothingToAnalyzeMessage: string := "No repositories found to analyze"
  const FetchErrorPrefix: string := "Error fetching repository data: "
  const ProcessingErrorPrefix: string := "Error processing request: "
  const NullBodyMessage: string := "Cannot destructure property 'selectedRepositories' of 'requestBody' as it is null."
  const RateLimitMessage: string := "OpenAI API rate limit exceeded. Please try again later."
  const InvalidKeyMessage: string := "Invalid OpenAI API key. Please check your API key configuration."
  const ServerErrorMessage: string := "OpenAI API server error. Please try again later."
  const GenerationErrorPrefix: string := "Error generating report: "
  const InvalidReplyMessage: string := "Invalid response from OpenAI API"
  const NoContentText: string := "Error: No content generated"

  /** The selection narrows the candidates only when the caller asked for it
      and named at least one repository. */
  predicate Restricts(selection: Option<seq<string>>, analyzeAll: bool) {
    !analyzeAll && selection.Some? && |selection.value| > 0
  }

  function NameIn(names: seq<string>): Repository -> bool {
    (r: Repository) => r.name in names
  }

  /** The repositories the report is about. */
  function Candidates(rs: seq<Repository>, selection: Option<seq<string>>, analyzeAll: bool): (c: seq<Repository>)
    ensures !Restricts(selection, analyzeAll) ==> c == rs
    ensures Restricts(selection, analyzeAll) ==> forall x :: x in c <==> x in rs && x.name in selection.value
  {
    if Restricts(selection, analyzeAll) then Seqs.Filter(rs, NameIn(selection.value)) else rs
  }

  /** The candidates keep the fetched order. */
  lemma CandidatesKeepOrder(rs: seq<Repository>, selection: Option<seq<string>>, analyzeAll: bool)
    ensures Seqs.IsSubsequence(Candidates(rs, selection, analyzeAll), rs)
  {
    if Restricts(selection, analyzeAll) {
      Seqs.FilterIsSubsequence(rs, NameIn(selection.value));
    } else {
      Seqs.FilterKeepsAll(rs, (r: Repository) => true);
      Seqs.FilterIsSubsequence(rs, (r: Repository) => true);
    }
  }

  function UpdatedAt(r: Repository): int { r.updatedAt }

  /** The candidate list after the route's in-place sort, which only happens
      when there are more than five. */
  function ReportOrder(cands: seq<Repository>): (o: seq<Repository>)
    ensures multiset(o) == multiset(cands) && |o| == |cands|
  {
    if |cands| > MaxReposToAnalyze then Seqs.SortDesc(cands, UpdatedAt) else cands
  }

  /** `reposToAnalyze`. */
  function ReposToAnalyze(cands: seq<Repository>): (a: seq<Repository>)
    ensures |a| == if |cands| <= MaxReposToAnalyze then |cands| else MaxReposToAnalyze
    ensures |cands| <= MaxReposToAnalyze ==> a == cands
  {
    Seqs.Take(ReportOrder(cands), MaxReposToAnalyze)
  }

  /** Over five candidates, the analysed ones are the most recently updated:
      each comes from the candidates, they run newest first, and no
      candidate left out was updated later than any analysed one. */
  lemma AnalysedAreMostRecent(cands: seq<Repository>)
    requires |cands| > MaxReposToAnalyze
    ensures var a := ReposToAnalyze(cands);
            && Seqs.SortedDesc(a, UpdatedAt)
            && (forall x :: x in a ==> x in cands)
            && (forall x, y :: x in a && y in cands && y !in a ==> y.updatedAt <= x.updatedAt)
  {
    Seqs.TopDominates(cands, UpdatedAt, MaxReposToAnalyze);
  }

  /** `repoCountMessage`. */
  function RepoCountMessage(n: nat): (m: string)
    ensures m != "" <==> n > MaxReposToAnalyze
  {
    if n > MaxReposToAnalyze then
      "Note: Analyzing only the " + Text.NatToString(MaxReposToAnalyze) + " most recently updated repositories out of "
        + Text.NatToString(n) + " total repositories to prevent timeout."
    else ""
  }

  function CountOf(e: Summary.LanguageCount): int { e.count }

  /** The statistics block, computed over the (possibly re-ordered) list. */
  function ComputeStatistics(rs: seq<Repository>): (s: Statistics)
    ensures s.totalRepos == |rs|
    ensures s.privateRepos + s.publicRepos == s.totalRepos
    ensures |s.topLanguages| <= MaxTopLanguages
  {
    var summary := Summary.CalculateRepositorySummary(rs);
    Statistics(summary.totalRepos, summary.privateRepos, summary.publicRepos, summary.archivedRepos,
               summary.inactiveRepos, TopOf(summary.languages))
  }

  /** `Object.entries(...).sort(by count, descending).slice(0, 5)`. */
  function TopOf(h: seq<Summary.LanguageCount>): (top: seq<Summary.LanguageCount>)
    ensures |top| <= MaxTopLanguages
  {
    Seqs.Take(Seqs.SortDesc(h, CountOf), MaxTopLanguages)
  }

  /** The top languages: at most five, most repositories first, never
      `"None"` or empty, each with its true count, and no language left out
      has more repositories than one listed. */
  lemma TopLanguages(rs: seq<Repository>)
    ensures var top := ComputeStatistics(rs).topLanguages;
            var h := Summary.Histogram(rs);
            && Seqs.SortedDesc(top, CountOf)
            && (forall e :: e in top ==> TrueEntry(rs, e))
            && (forall e, o :: e in top && o in h && o !in top ==> o.count <= e.count)
  {
    var h := Summary.Histogram(rs);
    var top := TopOf(h);
    assert top == ComputeStatistics(rs).topLanguages;
    TopOfDominates(h);
    forall e | e in top ensures TrueEntry(rs, e) {
      HistogramEntryIsTrue(rs, e);
    }
  }

  lemma TopOfDominates(h: seq<Summary.LanguageCount>)
    ensures Seqs.SortedDesc(TopOf(h), CountOf)
    ensures forall e :: e in TopOf(h) ==> e in h
    ensures forall e, o :: e in TopOf(h) && o in h && o !in TopOf(h) ==> o.count <= e.count
  {
    Seqs.TopDominates(h, CountOf, MaxTopLanguages);
    forall e, o | e in TopOf(h) && o in h && o !in TopOf(h) ensures o.count <= e.count {
      assert CountOf(o) <= CountOf(e);
    }
  }

  /** A histogram entry for a real language holding its repository count. */
  predicate TrueEntry(rs: seq<Repository>, e: Summary.LanguageCount) {
    IsRealLanguage(e.language) && e.count == Summary.CountLanguage(rs, e.language) && e.count >= 1
  }

  lemma HistogramEntryIsTrue(rs: seq<Repository>, e: Summary.LanguageCount)
    requires e in Summary.Histogram(rs)
    ensures TrueEntry(rs, e)
  {
    Summary.HistogramEntries(rs);
  }

  /** The statistics describe every candidate, not just the analysed five:
      the in-place sort changes no count. */
  lemma StatisticsCoverAllCandidates(cands: seq<Repository>)
    ensures var s := ComputeStatistics(ReportOrder(cands));
            var all := Summary.CalculateRepositorySummary(cands);
            && s.totalRepos == |cands|
            && s.privateRepos == all.privateRepos && s.publicRepos == all.publicRepos
            && s.archivedRepos == all.archivedRepos && s.inactiveRepos == all.inactiveRepos
            && (forall e :: e in s.topLanguages ==> e.count == Summary.CountLanguage(cands, e.language))
  {
    var o := ReportOrder(cands);
    Summary.SummaryPermutationInvariant(o, cands);
    TopLanguages(o);
    forall e | e in ComputeStatistics(o).topLanguages ensures e.count == Summary.CountLanguage(cands, e.language) {
      Seqs.CountPermutation(o, cands, Summary.LanguageIs(e.language));
    }
  }

  /** The response for a failed model call. */
  function ModelErrorResponse(status: int, message: string): (r: ReportResponse)
    ensures r.ReportFailed? && r.status != 0
    ensures status != 0 ==> r.status == status
    ensures status == 429 ==> r.message == RateLimitMessage
    ensures status == 401 ==> r.message == InvalidKeyMessage
    ensures status == 500 ==> r.message == ServerErrorMessage
    ensures status !in {429, 401, 500} ==> Text.IsPrefix(GenerationErrorPrefix, r.message)
  {
    var text :=
      if status == 429 then RateLimitMessage
      else if status == 401 then InvalidKeyMessage
      else if status == 500 then ServerErrorMessage
      else GenerationErrorPrefix + (if message != "" then message else "Unknown error");
    ReportFailed(if status != 0 then status else 500, text)
  }

  /** The route handler. `openAiKey` is the environment variable ("" when
      unset), `title` the rendered report heading and `now` the clock. */
  function Post(req: ReportRequest, openAiKey: string, fetch: RepoFetch, model: Prompt -> LlmReply,
                title: string, now: int): (r: (ReportResponse, ReportEffects))
    ensures req.MalformedJson? ==> r == (ReportFailed(400, InvalidJsonMessage), ReportEffects(false, false))
    ensures req.ReportRequest? && openAiKey == "" ==> r == (ReportFailed(401, MissingKeyMessage), ReportEffects(false, false))
    ensures r.1.fetchedRepositories <==> req.ReportRequest? && openAiKey != ""
    ensures r.1.calledModel <==> r.1.fetchedRepositories && fetch.RepoList?
                                 && |Candidates(fetch.repos, req.selection, req.analyzeAll)| > 0
    ensures r.1.fetchedRepositories && fetch.RepoFetchFailed? ==> r.0 == ReportFailed(500, FetchErrorPrefix + fetch.message)
    ensures r.1.fetchedRepositories && !r.1.calledModel && fetch.RepoList? ==> r.0 == ReportFailed(400, NothingToAnalyzeMessage)
    ensures r.0.ReportOk? ==> r.1.calledModel
  {
    match req
    case MalformedJson => (ReportFailed(400, InvalidJsonMessage), ReportEffects(false, false))
    case NullBody => (ReportFailed(500, ProcessingErrorPrefix + NullBodyMessage), ReportEffects(false, false))
    case ReportRequest(selection, analyzeAll) =>
      if openAiKey == "" then (ReportFailed(401, MissingKeyMessage), ReportEffects(false, false))
      else match fetch
        case RepoFetchFailed(msg) => (ReportFailed(500, FetchErrorPrefix + msg), ReportEffects(true, false))
        case RepoList(rs) =>
          var cands := Candidates(rs, selection, analyzeAll);
          if |cands| == 0 then (ReportFailed(400, NothingToAnalyzeMessage), ReportEffects(true, false))
          else
            var prompt := PromptFor(cands);
            var answer :=
              match model(prompt)
              case Completion(content) =>
                ReportOk(title + (if content != "" then content else NoContentText),
                         ReportMetadata(now, prompt.stats.totalRepos, |prompt.analysed|, prompt.stats.inactiveRepos))
              case NoChoices => ModelErrorResponse(0, InvalidReplyMessage)
              case LlmFailure(status, message) => ModelErrorResponse(status, message);
            (answer, ReportEffects(true, true))
  }

  /** The prompt built from the candidates. */
  function PromptFor(cands: seq<Repository>): (p: Prompt)
    ensures p.analysed == ReposToAnalyze(cands)
    ensures p.stats.totalRepos == |cands|
    ensures p.note != "" <==> |cands| > MaxReposToAnalyze
  {
    Prompt(ComputeStatistics(ReportOrder(cands)), RepoCountMessage(|cands|), ReposToAnalyze(cands))
  }

  /** A generated report counts every candidate, analyses at most five of
      them, and reports the inactive candidates. */
  lemma ReportMetadataCounts(req: ReportRequest, openAiKey: string, fetch: RepoFetch, model: Prompt -> LlmReply,
                             title: string, now: int)
    requires Post(req, openAiKey, fetch, model, title, now).0.ReportOk?
    ensures var cands := Candidates(fetch.repos, req.selection, req.analyzeAll);
            var m := Post(req, openAiKey, fetch, model, title, now).0.metadata;
            && m.repositoryCount == |cands|
            && m.analyzedCount == (if |cands| <= MaxReposToAnalyze then |cands| else MaxReposToAnalyze)
            && m.inactiveCount == Seqs.Count(cands, IsInactive)
            && m.generatedAt == now
  {
    var cands := Candidates(fetch.repos, req.selection, req.analyzeAll);
    StatisticsCoverAllCandidates(cands);
  }

  /** A model error never yields success, and its status is never 0. */
  lemma ModelErrorsFail(req: ReportRequest, openAiKey: string, fetch: RepoFetch, model: Prompt -> LlmReply,
                        title: string, now: int)
    requires Post(req, openAiKey, fetch, model, title, now).1.calledModel
    requires !model(PromptFor(Candidates(fetch.repos, req.selection, req.analyzeAll))).Completion?
    ensures Post(req, openAiKey, fetch, model, title, now).0.ReportFailed?
    ensures Post(req, openAiKey, fetch, model, title, now).0.status != 0
  {
  }
}
