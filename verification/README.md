# GitHub repository analysis tool — a Dafny model of its bookkeeping core

The tool has two dashboards:
- a Next.js page that reads the user's repositories from GitHub, caches them in IndexedDB and asks OpenAI for reports and per-repository insights;
- a static page backed by Python CGI scripts that list, archive and delete repositories with the `gh` client.

Beneath the UI and the network calls sits a layer of pure bookkeeping, and this project models that layer. Every outside party is a parameter:
- GitHub's answers;
- the language breakdown of each repository;
- the OpenAI reply;
- each `gh` subprocess outcome;
- the data file;
- the file-system calls of the archive helper (the archive directory, the temporary directory, each `.git` removal and the zip);
- whether IndexedDB opened, and whether each later IndexedDB request succeeds;
- the clock.

Timestamps are integer milliseconds and sizes are integer kilobytes.

Modules, in dependency order:

- `Wrappers`, `Text`, `Seqs`: shared definitions, each defined once.
  - `Option`.
  - ASCII lower-casing, substring search, Python's `split`/`join` on one character, decimal rendering and code-point string order.
  - Filtering, counting, summing, a stable descending insertion sort and `slice(0, k)`.
- `Repos` (`src/types/repository.ts`): the `Repository` record, floor day arithmetic and the 180-day inactivity rule.
- `Normalize` (`processRepositoryData` in `src/app/page.tsx`): GitHub REST records become `Repository` values. The primary language is the one with the most bytes.
- `Summary` (`calculateRepositorySummary`): the counts and the language histogram, kept in insertion order as JavaScript objects keep it.
- `Filters` and `Selection`: `applyFilters`, the row toggle and the select-all toggle of the page.
- `Cache` (`src/lib/db.ts`): the three object stores as finite maps, with upsert, read, clear and the day-based expiry tests.
- `Loader`: the page's first load, background refresh and explicit refresh, as state transitions.
- `Report` (`src/app/api/report/route.ts`): candidate selection, the cap of five, statistics, top languages and error mapping.
- `InsightPanel` (`src/components/repository-insights.tsx`): mount decision, foreground and background generation, and the panel body.
- `RefreshCgi` (`refresh.py`): the Python normaliser, which takes the first listed language, and the action dispatch.
- `RepoManager` (`repo_manager.py`): per-item delete results, the archive clone loop, and `main` with its standard-output lines.
- `ApiCgi` (`api.py`): form validation, dispatch and response shaping over `RepoManager`.
- `Website` (`main.js`): language options, counters, the row filter, status badge, header checkbox, select buttons and delete alert.

## Model

| member | source | states |
|---|---|---|
| Repos.DaysSince | src/app/page.tsx:80-81 | the day count is the floor of the elapsed time in days: `d` whole days fit, `d + 1` do not |
| Repos.InactiveThreshold | src/app/page.tsx:96 | "more than 180 whole days" is the same as at least 181 days of milliseconds since the last push |
| Normalize.PrimaryLanguageIsLargest | src/app/page.tsx:66-75 | the chosen language has a byte count no entry exceeds and is the first such entry; it is `"None"` exactly when the breakdown is empty |
| Normalize.FailedLanguagesGiveNone | src/app/page.tsx:54-56 | a repository whose language request fails gets `"None"` |
| Normalize.PickPrimaryLanguage | src/app/page.tsx:67-75 | a one-pass maximum search yields the same language as sorting by bytes and taking the head |
| Normalize.NormalizeRepository | src/app/page.tsx:66-100 | the record copies the provider's fields, reads an absent description as empty, derives the activity fields at the given time, and carries the first language of largest byte count, `"None"` when the language request failed |
| Normalize.ProcessRepositoryData | src/app/page.tsx:61-101 | one record per input, in order; name, url, dates, archive flag and size copied; description `""` when absent; PRIVATE exactly when `private`; derived day count and inactivity consistent with the clock |
| Normalize.ProcessedLanguagesAreLargest | src/app/page.tsx:66-75 | every produced record's language is a largest entry of its own breakdown |
| Summary.HistogramCounts | src/lib/repository-service.ts:121-127 | keys are distinct and are exactly the real languages that occur; each lookup equals the number of repositories with that language; the counts sum to the repositories that have one |
| Summary.HistogramEntries | src/lib/repository-service.ts:122-127 | every entry names a real language (not `"None"`, not empty) with a count of at least one equal to its true count |
| Summary.CalculateRepositorySummary | src/lib/repository-service.ts:113-138 | total is the length; the private, public, archived and inactive counters are the lengths of the lists filtered by each test; private plus public is the total; the size total sums every repository's size |
| Summary.SummaryPermutationInvariant | src/lib/repository-service.ts:113-138 | re-ordering the input changes no count, no total size, no language's count and no language key |
| Filters.ApplyFilters | src/app/page.tsx:311-349 | never longer than the loaded list; every repository kept comes from it and passes every active control |
| Filters.ApplyFiltersIsConjunction | src/app/page.tsx:311-349 | the four steps in a row equal one filter by the conjunction of the four active tests |
| Filters.ApplyFiltersProperties | src/app/page.tsx:311-349 | the result is an order-preserving subsequence, keeps a repository iff it passes every active control, and is the input itself with every control off |
| Filters.ArchivedSelectionKeepsArchived | src/app/page.tsx:336-337 | the `archived` selector keeps exactly the archived repositories |
| Selection.ToggleRepositorySelection | src/app/page.tsx:370-378 | the toggled name flips membership and every other name keeps it |
| Selection.ToggleTwiceRestores | src/app/page.tsx:370-378 | toggling the same name twice gives back the original selection |
| Selection.ToggleSelectAll | src/app/page.tsx:381-391 | as written: empty selection when the sizes agree, otherwise exactly the visible names |
| Selection.ToggleSelectAllAgreesOnVisibleSelection | src/app/page.tsx:381-391 | when only visible rows are selected and no two visible rows share a name, the size test gives the same result as the set test |
| Selection.ToggleSelectAllDisagreesOnMissedRow | src/app/page.tsx:382-385 | whenever the selection has as many names as there are visible rows but misses one of them, the written toggle clears everything where the set test selects every visible row |
| Selection.ToggleSelectAllSizeMismatch | src/app/page.tsx:382 | a selection of one hidden repository beside one different visible one shows the header as checked, and the toggle then clears everything without selecting the visible row |
| Selection.ToggleSelectAllBySet | src/app/page.tsx:381-391 | corrected: clears when every visible row is selected, otherwise selects exactly the visible names |
| Selection.ToggleSelectAllBySetAlternates | src/app/page.tsx:381-391 | with the corrected test, one click selects every visible row and the next clears the selection |
| Cache.StoreRepositories | src/lib/db.ts:61-67 | insights untouched, `lastRepoUpdate` becomes the store time, every other metadata key kept with its value |
| Cache.StoreRepositoriesLastWins | src/lib/db.ts:70-81 | after the upsert a name reads back the last record in the list with that name, or its old record when the list has none |
| Cache.StoreRepositoriesIdempotent | src/lib/db.ts:61-81 | storing the same list a second time, at any time, changes no repository and no insight; only `lastRepoUpdate` moves to the second call's time |
| Cache.StoreRepositoriesKeepsKeyed | src/lib/db.ts:30 | records stay keyed by their own `name` (the store's key path) after an upsert |
| Cache.StoredRecordsAreFound | src/lib/db.ts:122-146 | every stored record's name is found afterwards |
| Cache.GetRepositories | src/lib/db.ts:95-111 | returns every stored record once, in ascending key order, and nothing else |
| Cache.InsightRoundTrip | src/lib/db.ts:149-214 | for every store, reading an insight back gives the stored text and the store time; other repositories' insights are unchanged |
| Cache.StoreInsightKeepsKeyed | src/lib/db.ts:160-169 | storing an insight keeps every store keyed by its key path |
| Cache.StoreRejected | src/lib/db.ts:61-90 | a rejected store writes no repository record and no insight, stamps the update time, and keeps every other metadata key with its value |
| Cache.CeilDaysAbove | src/lib/db.ts:221-222 | rounding a duration up to days exceeds `d` exactly when the duration exceeds `d` days |
| Cache.IsInsightExpired | src/lib/db.ts:216-223 | an insight is expired iff it lies more than seven full days of milliseconds away, in either direction |
| Cache.IsLastUpdateOlderThan | src/lib/db.ts:230-241 | true iff no update time is recorded or the last one lies more than the given number of full days away |
| Cache.IsDataExpired | src/lib/db.ts:225-228 | the data is expired iff no update time is recorded or the last one is more than one full day away |
| Cache.FreshAfterStore | src/lib/db.ts:61-67 | right after a store, the data counts as expired only once more than a day has passed |
| Cache.StoreInsight | src/lib/db.ts:149-181 | repositories and metadata untouched; every other repository's insight unchanged |
| Cache.ClearAll | src/lib/db.ts:274-292 | all three stores are empty afterwards |
| Cache.ClearAllForgets | src/lib/db.ts:274-292 | after clearing, the list is empty, no record or insight is found and the data counts as expired |
| Loader.LoadWith | src/app/page.tsx:202-255 | a failed open or a rejected cache read falls back to the demo data with the error; no token shows the demo data without a fetch; GitHub is contacted iff there is a token, the read succeeds and the cache is empty; a rejected store shows the demo data with the error and leaves the cached records unchanged; the spinner stays on only when an empty account list makes the store never settle |
| Loader.LoadRepositoriesAsWritten | src/app/page.tsx:222-232 | as written, the background refresh starts whenever there is a token and a successful read of a non-empty cache |
| Loader.LoadRepositories | src/app/page.tsx:222-232 | corrected: the background refresh starts iff the cache is read, non-empty and more than a day old |
| Loader.LoadDecision | src/app/page.tsx:213-250 | with a token: a rejected read or a failed fetch shows the demo data and the load error; a non-empty cache is shown as is; a non-empty fetch is shown as normalised and cached when its store succeeds, and gives the demo data with the load error and unchanged cached records when the store is rejected |
| Loader.FetchedListIsCached | src/app/page.tsx:234-250 | after a first fetch whose store succeeds, each shown record is found in the cache; after a rejected store the demo data shows and the cache still holds no repository; either way the update time is fresh |
| Loader.EmptyAccountKeepsLoading | src/app/page.tsx:239 | an empty fetched list leaves the page loading, whatever the store would do, because storing an empty list never settles |
| Loader.FreshCacheStillRefreshed | src/app/page.tsx:229 | as written, a cache stored the same instant still triggers a refresh, which the corrected decision does not |
| Loader.FetchAndStore | src/app/page.tsx:294-301 | the store stays pending iff the fetched list is empty and is rejected iff it is non-empty and a request fails; a rejected store leaves the cache as a failed transaction does; a stored list is the normalised fetch and changes nothing else on the page |
| Loader.RefreshInBackground | src/app/page.tsx:258-278 | silent: no token or a failed fetch changes nothing, and a rejected store changes nothing on the page; error, spinner and refreshing flag are never touched; a changed list is the normalised fetch of a successful store |
| Loader.RefreshRepositories | src/app/page.tsx:281-308 | no token, a failed fetch or a rejected store sets the matching message and clears the refreshing flag; no message remains only after a fetch whose store succeeds or stays pending; the flag stays up only for a store that never settles |
| Loader.RefreshShowsFetched | src/app/page.tsx:294-306 | after a non-empty fetch the refreshing flag is down; a successful store shows the normalised fetch, leaves demo mode and caches it; a rejected store keeps the shown list and the cached records and reports the refresh error |
| Report.Candidates | src/app/api/report/route.ts:61-66 | without a selection (or with `analyzeAll`) all repositories; otherwise exactly those whose name is selected |
| Report.CandidatesKeepOrder | src/app/api/report/route.ts:61-66 | the candidates keep the fetched order |
| Report.ReportOrder | src/app/api/report/route.ts:87-93 | the re-ordered list is a permutation of the candidates |
| Report.ReposToAnalyze | src/app/api/report/route.ts:83-97 | the analysed list has `min(n, 5)` entries and is the candidate list itself when `n <= 5` |
| Report.AnalysedAreMostRecent | src/app/api/report/route.ts:87-94 | above five candidates, the analysed ones are sorted newest first, come from the candidates, and none left out was updated later than one kept |
| Report.RepoCountMessage | src/app/api/report/route.ts:85-95 | the truncation note is non-empty iff there are more than five candidates |
| Report.TopOf | src/app/api/report/route.ts:133-136 | at most five entries |
| Report.TopOfDominates | src/app/api/report/route.ts:133-136 | the kept entries come from the histogram in non-increasing count order, and no entry left out has a larger count than one kept |
| Report.TopLanguages | src/app/api/report/route.ts:125-136 | at most five entries, non-increasing counts, each a real language with its true count, and no omitted language has more repositories than a listed one |
| Report.StatisticsCoverAllCandidates | src/app/api/report/route.ts:117-123 | the statistics count all candidates, not only the analysed five |
| Report.ComputeStatistics | src/app/api/report/route.ts:117-136 | total is the list's length, private plus public is the total, at most five top languages |
| Report.ModelErrorResponse | src/app/api/report/route.ts:216-229 | a failure whose status is the error's own status, or 500 when absent; fixed texts for 429, 401 and 500 and a generic prefix otherwise |
| Report.Post | src/app/api/report/route.ts:14-247 | bad JSON is 400; no OpenAI key is 401 before any fetch; a failed fetch is 500; no candidates is 400 with no model call; success only after the model was called |
| Report.PromptFor | src/app/api/report/route.ts:82-123 | the prompt analyses the capped list, counts all candidates and carries the note iff there are more than five |
| Report.ReportMetadataCounts | src/app/api/report/route.ts:205-213 | a successful report counts all candidates, analyses `min(n, 5)` of them, reports the inactive candidates and is stamped with the request time |
| Report.ModelErrorsFail | src/app/api/report/route.ts:216-229 | a model call that does not complete never yields success and never status 0 |
| InsightPanel.Generate | src/components/repository-insights.tsx:63-143 | foreground clears the spinner on every exit; background never touches spinner or error; no token leaves background state unchanged and sets the key error in the foreground; a success caches the text for this repository only; the shown insight changes only to a fresh result |
| InsightPanel.GenerateSuccessDisplay | src/components/repository-insights.tsx:122-131 | a foreground success shows the new text; a background one shows it iff nothing was displayed to the run |
| InsightPanel.GenerateFailure | src/components/repository-insights.tsx:133-141 | a background failure changes nothing; a foreground failure only stops the spinner and sets the failure message |
| InsightPanel.LoadInsight | src/components/repository-insights.tsx:35-57 | a cached insight is shown at once, with one background run iff it is expired; no cache schedules a foreground run; a cache error sets the cache message and schedules nothing |
| InsightPanel.MountAsWritten | src/components/repository-insights.tsx:34-60 | as written: what the mount schedules, run with the insight its closure captured |
| InsightPanel.Mount | src/components/repository-insights.tsx:34-60 | corrected: the background run consults the insight on screen |
| InsightPanel.StaleClosureReplacesShownInsight | src/components/repository-insights.tsx:128 | as written, an expired cached insight on screen is replaced by the background result; corrected, it stays while the cache gets the new text |
| InsightPanel.MountSettles | src/components/repository-insights.tsx:34-60 | the mount never leaves the spinner on, and a mount over a cached insight never sets an error |
| InsightPanel.Render | src/components/repository-insights.tsx:166-193 | skeleton iff loading with nothing to show; the insight iff there is non-empty text; the placeholder otherwise |
| InsightPanel.SkeletonOnlyWhileLoading | src/components/repository-insights.tsx:64-67 | an empty panel shows the skeleton while a foreground run starts and not after it ends |
| RefreshCgi.FirstLanguageIgnoresLater | github-repo-analysis/website/dist/api/refresh.py:57-60 | the chosen language depends on the first listed entry alone, whatever follows it |
| RefreshCgi.NormalizeGhRepo | github-repo-analysis/website/dist/api/refresh.py:53-76 | fields copied, whole days since the push, inactive iff more than 180, first listed language |
| RefreshCgi.WebsiteData | github-repo-analysis/website/dist/api/refresh.py:51-76 | one output entry per listed repository, in order |
| RefreshCgi.WebsiteDataInactiveThreshold | github-repo-analysis/website/dist/api/refresh.py:54-74 | an entry is inactive iff its last push lies at least 181 days of milliseconds back |
| RefreshCgi.PrimaryLanguageVariantsDiffer | github-repo-analysis/website/dist/api/refresh.py:58-60 | for the same breakdown the page picks the language with most bytes and the script the first listed one |
| RefreshCgi.FetchRepositoryData | github-repo-analysis/website/dist/api/refresh.py:14-98 | no token fails without running `gh`; a failed temporary directory fails with `Error:` before `gh`; `gh` runs iff there is a token and the directory; success iff `gh` listed cleanly and the data file was written; a failed write fails with `Error:`; on success the count is the number listed and the data file holds their normalisation |
| RefreshCgi.Main | github-repo-analysis/website/dist/api/refresh.py:100-131 | an empty action and an unknown action fail with their messages and run nothing |
| RefreshCgi.WrittenCountMatches | github-repo-analysis/website/dist/api/refresh.py:79-87 | the data file is written iff the action is `refresh`, a token is set, the temporary directory exists, `gh` listed cleanly and the write succeeded; the reported count is the number written |
| RepoManager.DeleteRepositories | github-repo-analysis/website/repo_manager.py:70-91 | one result per name, in order, carrying that name; success iff `gh` deleted it; an error text exactly on failures, namely `gh`'s stderr |
| RepoManager.DeleteCountsRefusals | github-repo-analysis/website/repo_manager.py:74-89 | the failed results are exactly as many as the names `gh` refused: one refusal does not stop the rest |
| RepoManager.UrlIndex | github-repo-analysis/website/repo_manager.py:29 | every record's name is indexed, each index entry comes from a record, and the last record with a name wins |
| RepoManager.CloneAll | github-repo-analysis/website/repo_manager.py:32-57 | the archived names are an order-preserving subsequence of the request, all known to the data file and cloned; the loop crashes iff some completed clone's `.git` removal raises, and otherwise archives exactly the known names whose clone succeeded |
| RepoManager.ArchiveRepositories | github-repo-analysis/website/repo_manager.py:16-68 | completes iff both directories are created, the data file is read, every `.git` removal returns and the zip is written; a failed archive or temporary directory crashes before any line is printed, an unreadable data file after the first; a completed run returns the timestamped archive path and the cloned names |
| RepoManager.MainWith | github-repo-analysis/website/repo_manager.py:16-117 | too few arguments or an unknown action print usage and exit 1; exit 0 iff the action is delete, or archive with every file-system step of the archive returning; the JSON document comes last on standard output |
| RepoManager.MainAsWritten | github-repo-analysis/website/repo_manager.py:25-113 | as written, a successful run prints progress lines before the JSON document |
| RepoManager.Main | github-repo-analysis/website/repo_manager.py:106-113 | corrected, a successful run's standard output is the JSON document alone |
| RepoManager.DeleteRunReportsEveryName | github-repo-analysis/website/repo_manager.py:99-113 | splitting never yields an empty list, so the "No repositories specified" exit is unreachable; a delete always exits 0 with every name's result |
| ApiCgi.Keys | github-repo-analysis/website/api.py:28-41 | `success` and `message` always; `archive_path` iff an archive succeeded; `results` iff a deletion was processed |
| ApiCgi.DecodeStdout | github-repo-analysis/website/api.py:27 | the helper's output decodes iff it is exactly one JSON document; output starting with text gives the decoder's "Expecting value" complaint |
| ApiCgi.HandleArchive | github-repo-analysis/website/api.py:13-42 | a non-zero exit gives the archive error with the helper's stderr; success carries the count of requested names |
| ApiCgi.HandleDelete | github-repo-analysis/website/api.py:44-73 | a non-zero exit gives the delete error with the helper's stderr; success carries the count of requested names |
| ApiCgi.MainWith | github-repo-analysis/website/api.py:75-114 | a missing action or an empty or undecodable list is "Missing required parameters"; another action is "Unknown action: …"; archive and delete results only for their own action |
| ApiCgi.MainAsWritten | github-repo-analysis/website/api.py:27 | with the helper as written, the endpoint never reports success |
| ApiCgi.CompletedDeleteReportedAsError | github-repo-analysis/website/api.py:58 | as written, a delete the helper completed comes back as `Error: Expecting value…` |
| ApiCgi.Main | github-repo-analysis/website/api.py:102-114 | corrected: archive and delete results only for their own action |
| ApiCgi.DeleteResponse | github-repo-analysis/website/api.py:48-63 | corrected: a delete request returns the helper's results for the names split off the joined list and counts the names sent |
| ApiCgi.DeleteReturnsEveryResult | github-repo-analysis/website/api.py:48-63 | corrected, with no comma in a name: exactly one result per requested name, in order |
| ApiCgi.ArchiveReturnsPath | github-repo-analysis/website/api.py:17-37 | corrected: an archive request succeeds iff every file-system step of the helper returns for the split names, and then names the timestamped archive path; a failure answers "Error archiving repositories: " with the helper's standard error, its progress and traceback |
| ApiCgi.UnwritableArchiveDirFails | github-repo-analysis/website/api.py:33-37 | with a readable data file but no archive directory, the request fails with the helper's traceback alone |
| ApiCgi.ResponseKeys | github-repo-analysis/test/run_tests.py:14-18 | a successful archive has keys `success`, `message`, `archive_path`; a processed deletion `success`, `message`, `results`; a failure only `success`, `message` |
| ApiCgi.CommaInNameSplitsRequest | github-repo-analysis/website/api.py:48 | a name holding a comma reaches the helper as two names, so the message counts one while two results come back |
| Text.SplitJoinRoundTrip | github-repo-analysis/website/repo_manager.py:100 | splitting the comma-joined names recovers them when there is at least one and none holds a comma |
| Text.ToLower | github-repo-analysis/website/repo_manager.py:99 | same length, each character lower-cased on its own |
| Text.EmptyJoinSplitsToOneEmptyName | github-repo-analysis/website/repo_manager.py:100-104 | splitting an empty joined list gives one empty name, so the "No repositories specified" test cannot fire |
| Text.Split | github-repo-analysis/website/repo_manager.py:100 | splitting never returns an empty list |
| Text.ContainsIffOccurs | src/app/page.tsx:317-320 | the substring search succeeds iff the term occurs at some position |
| Text.SortedElements | github-repo-analysis/website/dist/js/main.js:116 | a set of strings listed once each, in strictly ascending code-point order |
| Seqs.SortDesc | src/app/api/report/route.ts:89-93 | the sort is a permutation of its input ordered by non-increasing key |
| Seqs.SortDescHeadIsFirstMax | src/app/page.tsx:73-74 | the head of the stable descending sort is the first element with maximal key |
| Seqs.TopDominates | src/app/api/report/route.ts:94 | the first `k` after the sort come from the input and no element left out has a larger key than one kept |
| Website.LanguageOptions | github-repo-analysis/website/dist/js/main.js:54-58 | the options are strictly ascending and are exactly the real languages that occur, never `"None"` or empty |
| Website.LanguageOptionsDistinct | github-repo-analysis/website/dist/js/main.js:115-124 | no language option appears twice |
| Website.UpdateSummary | github-repo-analysis/website/dist/js/main.js:127-133 | total is the length; the private, public, archived and inactive counters are the lengths of the lists filtered by each test; private plus public is the total |
| Website.UpdateSummaryAgreesWithPage | github-repo-analysis/website/dist/js/main.js:127-133 | the static page's five counters equal the Next.js summary's counts for the same list |
| Website.RenderFilter | github-repo-analysis/website/dist/js/main.js:155-178 | a row is drawn iff it is loaded and passes all four tests |
| Website.RenderFilterIsSubsequence | github-repo-analysis/website/dist/js/main.js:155-178 | drawn rows keep the loaded order |
| Website.RenderFilterNoFilters | github-repo-analysis/website/dist/js/main.js:157-159 | the empty search matches every row, so with every selector at `all` all rows are drawn |
| Website.UnknownActivityDrawsNothing | github-repo-analysis/website/dist/js/main.js:167-170 | an activity value other than `all`, `active` or `inactive`, such as `archived`, draws no row |
| Website.RenderFilterAgreesWithPage | github-repo-analysis/website/dist/js/main.js:149-178 | for the three shared activity values both dashboards show the same rows |
| Website.ArchivedSelectorDiffers | github-repo-analysis/website/dist/js/main.js:167-170 | an archived repository is kept by the page's `archived` selector and dropped by the static one |
| Website.StatusBadge | github-repo-analysis/website/dist/js/main.js:189-198 | the badge describes the repository and has the highest precedence (archived, inactive, private, public) |
| Website.StatusBadgeUnique | github-repo-analysis/website/dist/js/main.js:189-198 | any applicable badge of highest precedence is the one chosen |
| Website.UpdateSelectAllCheckbox | github-repo-analysis/website/dist/js/main.js:243-249 | checked iff some row is drawn and all are selected; indeterminate iff some but not all are; never both |
| Website.SelectAll | github-repo-analysis/website/dist/js/main.js:288-298 | adds exactly the drawn names |
| Website.DeselectAll | github-repo-analysis/website/dist/js/main.js:301-311 | removes exactly the drawn names |
| Website.SelectButtonsFrame | github-repo-analysis/website/dist/js/main.js:272-311 | a hidden selection survives both buttons; afterwards the header reads checked or cleared |
| Website.DeleteOutcome | github-repo-analysis/website/dist/js/main.js:425-443 | selection cleared iff the response succeeded; a failure alerts its message; "Partially completed" carries requested minus succeeded, which is positive |
| Website.DeleteOutcomeCountsFailures | github-repo-analysis/website/dist/js/main.js:427-433 | with one result per request, the partial alert appears iff a result failed, and counts the failed results |
| Website.FromApi | github-repo-analysis/website/dist/js/main.js:421-427 | the browser sees success, message and results exactly as the endpoint sent them |
| Website.DeleteAlertCountsRefusals | github-repo-analysis/website/dist/js/main.js:408-433 | through the corrected endpoint, the alert is partial iff `gh` refused some repository, and counts the refusals |

## Left out

- Network, subprocess and storage I/O. This covers GitHub and OpenAI requests, `gh`, the CGI form parser, `localStorage`, reading and writing the data file, creating `refresh.py`'s temporary directory, and the IndexedDB requests. Each becomes a parameter carrying its outcome: for IndexedDB, whether the database opened, whether `getRepositories` resolved, whether the `put`s of `storeRepositories` succeeded, and whether the cached insight could be read. A rejected `storeInsight` takes the same `catch` as a failed OpenAI request, so it is folded into `InsightPanel.ModelReply`'s failure case.
- Concurrency: each asynchronous function is one atomic step. Interleavings are not modelled, such as a background refresh racing an explicit one, or a background insight run racing a click on "Refresh Insights".
- Floating point and display: `diskUsageMB` (`/1024` on the page, `round(/1000, 2)` in `refresh.py`), `toFixed` totals, locale date strings and the "Last generated" text. Sizes are integer kilobytes.
- Dates are integer milliseconds; ISO-8601 parsing and formatting are not modelled.
- Repos.DaysSince: models `Math.floor` and `timedelta.days` on integer milliseconds. Sub-millisecond precision of Python's clock is not modelled.
- Visibility `INTERNAL`, which `gh` can report, is not modelled: the record type admits only PRIVATE and PUBLIC.
- Text.ToLower: folds ASCII letters only. JavaScript's `toLowerCase` and Python's `lower` also fold other scripts.
- Text.SortedElements: orders by code point. JavaScript's default `sort` compares UTF-16 code units, which differs only for characters outside the Basic Multilingual Plane.
- Summary.CalculateRepositorySummary: language keys are kept in insertion order. JavaScript lists integer-like keys such as `"42"` first; no language name of that form is modelled.
- Seqs.SortDesc: the insertion sort is stable, as the engines' `sort` is. Stability is used but not stated as a separate lemma.
- Repository JSON that is not a list, and records with missing or mistyped fields, are not modelled. This covers `repositories` in `api.py` holding a dict or numbers, and `repo['pushedAt']` missing in `refresh.py`.
- RefreshCgi.FetchRepositoryData: a write that fails after `open` has truncated the data file leaves it empty or partly written. The model records no written contents on any failed write.
- RefreshCgi.FirstLanguageIgnoresLater: a language node that is present but has a null `name` yields JSON `null` in `refresh.py`, not `"None"`. It is modelled as `"None"`.
- ApiCgi.DecodeStdout: the decoder's messages are kept as text. The "Extra data" message's position suffix is not modelled.
- RepoManager.DeleteRepositories: the `CalledProcessError` text printed on a refusal is one fixed string. The real text names the command and exit status.
- Each crash of `repo_manager.py` (no archive directory, no temporary directory, an unreadable data file, a `.git` removal or a zip write that raises) is one fixed traceback line on standard error, not the interpreter's real traceback.
- RepoManager.ArchiveRepositories: the clean-up of the temporary directory when the `with` block ends is taken to succeed, and the zip's contents are not modelled.
- Report.Post: the `title` prefix and the clock are parameters.
- Report.Post: the inner statistics `catch` is not modelled. Counting cannot throw once the list is an array.
- Report.Post: a `null` body is mapped to the outer handler's 500. The engine's exact "cannot destructure" text is not modelled.
- Cache.StoreRejected: a rejected store is modelled as the whole repositories transaction rolled back, with the separate metadata transaction already committed. Which earlier `put`s a browser keeps when the transaction's own error fires late is not modelled.
- Loader.LoadWith: `storeRepositories([])` never resolves, because its promise only settles in a per-record callback. The load is modelled as left pending, with the spinner on.
- The report generator UI, the token dialog, the markdown converter, the thin fetch wrappers in `repository-service.ts` and `insights-service.ts`, and the constant API route stubs are outside this model.
- The archive flow of `main.js` is not part of this model; only the delete outcome is. The same goes for its refresh button and the re-initialisation after a delete.
- The `init` of `main.js` is not modelled. Re-running it without clearing the language set can append duplicate options.

## Findings

| source | as written | input that shows it | evidently intended | confidence | as-written member | corrected member |
|---|---|---|---|---|---|---|
| github-repo-analysis/website/api.py:27 | `json.loads(result.stdout)` parses the helper's whole standard output. `repo_manager.py` prints progress lines ("Deleting repository x...") before its JSON document. | a delete of `["a"]` that `gh` accepts: the helper exits 0, and the endpoint answers `success: false` with `Error: Expecting value: line 1 column 1 (char 0)` | the JSON document alone on standard output (progress on standard error), so the endpoint returns the per-name results | not executed; high | ApiCgi.MainAsWritten (with ApiCgi.CompletedDeleteReportedAsError) | ApiCgi.Main (with ApiCgi.DeleteReturnsEveryResult, RepoManager.Main) |
| src/app/page.tsx:229 | `if (db.isDataExpired())` tests a `Promise`, because `isLastUpdateOlderThan` is `async` (src/lib/db.ts:226-228). The type error is hidden by `ignoreBuildErrors` in next.config.js, and the test is always true. | a cache stored a moment ago with a token set: the background refresh still runs | refresh in the background only when the last update is more than a day old | not executed; high | Loader.LoadRepositoriesAsWritten (with Loader.FreshCacheStillRefreshed) | Loader.LoadRepositories |
| src/app/page.tsx:382 | `toggleSelectAll` compares the selection's size with the visible list's length | selection `{hidden}` while only a different repository `visible` is shown: the header shows checked, and clicking it clears the selection without ever selecting `visible` | deselect only when every visible repository is selected | not executed; high | Selection.ToggleSelectAll (with Selection.ToggleSelectAllSizeMismatch, Selection.ToggleSelectAllDisagreesOnMissedRow) | Selection.ToggleSelectAllBySet (with Selection.ToggleSelectAllBySetAlternates, Selection.ToggleSelectAllAgreesOnVisibleSelection) |
| src/components/repository-insights.tsx:128 | the mount effect calls `generateInsight(true)` from the first render's closure, where `insight` is still `null`, so `!insight` holds | an expired cached insight: it is displayed, then replaced by the background result | per the comment on the branch, the background result replaces the display only when no insight is shown | not executed; medium | InsightPanel.MountAsWritten (with InsightPanel.StaleClosureReplacesShownInsight) | InsightPanel.Mount |
