/** The repository page's loading logic: the first load on mount, the silent
    background refresh and the explicit refresh button. GitHub is an oracle
    (`FetchOutcome`), the browser's token store is an optional string,
    IndexedDB is the `Cache.Db` map store, and whether each IndexedDB request
    succeeds is a parameter. */
module Loader {
  import opened Wrappers
  import opened Repos
  import Normalize
  import Cache

  /** What `fetchRepositoriesFromGitHub` yields: the raw list, or a thrown
      error (a non-2xx status or a network failure). */
  datatype FetchOutcome = Fetched(raw: seq<Normalize.GitHubRepo>) | FetchFailed

  /** Whether the first load's IndexedDB requests succeed: `getRepositories`
      and the `put`s of `storeRepositories` can each reject. */
  datatype DbRequests = DbRequests(readOk: bool, storeOk: bool)

  /** How `storeRepositories` ends: the page state after the records were
      stored and shown, a rejection (with the cache it leaves), or a promise
      that never settles (with the cache it leaves). */
  datatype StoreResult = Stored(state: PageState) | StoreFailed(db: Cache.Db) | StorePending(db: Cache.Db)

  /** The page state the loaders write. */
  datatype PageState = PageState(
    repositories: seq<Repository>,
    isDemo: bool,
    isLoading: bool,
    isRefreshing: bool,
    errorMessage: Option<string>,
    db: Cache.Db)

  /** Calls the page makes to the outside world during one step. */
  datatype Effects = Effects(fetchedFromGitHub: bool, backgroundRefresh: bool)

  const LoadFailedMessage: string := "Failed to load repositories. Please check your GitHub token and try again."
  const RefreshFailedMessage: string := "Failed to refresh repositories. Please check your GitHub token and try again."
  const TokenRequiredMessage: string := "GitHub token is required. Please set your token in settings."

  /** The state React starts with, before the load effect runs. */
  function Initial(db: Cache.Db): PageState {
    PageState([], true, true, false, None, db)
  }

  /** `localStorage.getItem` gives null or a string, and the empty string is
      falsy too. */
  predicate HasToken(token: Option<string>) {
    token.Some? && token.value != ""
  }

  function DemoRepo(name: string, description: string, createdAt: int, pushedAt: int, archived: bool,
                    size: nat, visibility: Visibility, language: string, days: int, inactive: bool): Repository
  {
    Repository(name, "https://github.com/user/" + name, Some(description), archived, size, visibility,
               createdAt, pushedAt, pushedAt, days, inactive, language)
  }

  /** The fixed demo dataset shown without a token or after a failed load. */
  const DemoRepositories: seq<Repository> := [
    DemoRepo("example-repo-1", "An example repository (demo data)", 1673784000000, 1687275000000,
             false, 5200, Public, "JavaScript", 285, true),
    DemoRepo("example-repo-2", "Another example repository (demo data)", 1678439700000, 1709639100000,
             false, 12700, Private, "TypeScript", 27, false),
    DemoRepo("archived-example", "An archived example repository (demo data)", 1653056400000, 1668247800000,
             true, 3800, Public, "Python", 506, true)
  ]

  /** Falls back to the demo data with the load error shown. */
  function DemoAfterError(s: PageState): PageState {
    s.(repositories := DemoRepositories, isDemo := true, isLoading := false, errorMessage := Some(LoadFailedMessage))
  }

  /** `loadRepositories`, with the cached-data staleness test passed in as
      `staleWhenCached` so that the code as written and the intended test
      share every other step. `initOk` is whether IndexedDB opened; any
      rejection inside the `try` ends in the demo data with the load error. */
  function LoadWith(s: PageState, initOk: bool, token: Option<string>, idb: DbRequests, fetch: FetchOutcome,
                    languagesOf: Normalize.GitHubRepo -> Normalize.LanguageFetch, now: int,
                    staleWhenCached: bool): (r: (PageState, Effects))
    ensures !initOk ==> r.0 == DemoAfterError(s) && !r.1.fetchedFromGitHub && !r.1.backgroundRefresh
    ensures initOk && !HasToken(token) ==>
              r.0 == s.(repositories := DemoRepositories, isDemo := true, isLoading := false, errorMessage := None)
              && r.1 == Effects(false, false)
    ensures initOk && HasToken(token) && !idb.readOk ==> r.0 == DemoAfterError(s) && r.1 == Effects(false, false)
    ensures r.1.fetchedFromGitHub <==> initOk && HasToken(token) && idb.readOk && |Cache.GetRepositories(s.db)| == 0
    ensures r.1.fetchedFromGitHub && fetch.Fetched? && |fetch.raw| > 0 && !idb.storeOk ==>
              r.0 == DemoAfterError(s).(db := Cache.StoreRejected(s.db, now))
    ensures r.1.backgroundRefresh ==> staleWhenCached
    ensures !r.1.fetchedFromGitHub ==> r.0.db == s.db
    ensures r.0.isDemo && !r.0.isLoading ==> r.0.repositories == DemoRepositories
    ensures r.0.isLoading <==> r.1.fetchedFromGitHub && fetch == Fetched([])
  {
    // the load starts by raising the spinner and clearing the last error
    var s0 := s.(isLoading := true, errorMessage := None);
    if !initOk then
      (DemoAfterError(s0), Effects(false, false))
    else if !HasToken(token) then
      (s0.(repositories := DemoRepositories, isDemo := true, isLoading := false), Effects(false, false))
    else if !idb.readOk then
      (DemoAfterError(s0), Effects(false, false))
    else
      var cached := Cache.GetRepositories(s.db);
      if |cached| > 0 then
        (s0.(repositories := cached, isDemo := false, isLoading := false), Effects(false, staleWhenCached))
      else
        match fetch
        case FetchFailed => (DemoAfterError(s0), Effects(true, false))
        case Fetched(raw) =>
          match FetchAndStore(s0, raw, idb.storeOk, languagesOf, now)
          case Stored(t) => (t.(isLoading := false), Effects(true, false))
          case StoreFailed(db) => (DemoAfterError(s0).(db := db), Effects(true, false))
          // the awaited store never settles: the load stays pending
          case StorePending(db) => (s0.(db := db), Effects(true, false))
  }

  /** `loadRepositories` as written: the staleness test is the promise that
      `isDataExpired` returns, which is always truthy. */
  function LoadRepositoriesAsWritten(s: PageState, initOk: bool, token: Option<string>, idb: DbRequests, fetch: FetchOutcome,
                                     languagesOf: Normalize.GitHubRepo -> Normalize.LanguageFetch, now: int): (r: (PageState, Effects))
    ensures r.1.backgroundRefresh <==> initOk && HasToken(token) && idb.readOk && |Cache.GetRepositories(s.db)| > 0
  {
    LoadWith(s, initOk, token, idb, fetch, languagesOf, now, true)
  }

  /** `loadRepositories` with the staleness test read as the boolean it is
      meant to be. */
  function LoadRepositories(s: PageState, initOk: bool, token: Option<string>, idb: DbRequests, fetch: FetchOutcome,
                            languagesOf: Normalize.GitHubRepo -> Normalize.LanguageFetch, now: int): (r: (PageState, Effects))
    ensures r.1.backgroundRefresh <==> initOk && HasToken(token) && idb.readOk && |Cache.GetRepositories(s.db)| > 0 && Cache.IsDataExpired(s.db, now)
  {
    LoadWith(s, initOk, token, idb, fetch, languagesOf, now, Cache.IsDataExpired(s.db, now))
  }

  /** The decision table of the first load with a token: a rejected read
      or a failed fetch shows the demo data with the error, a cached list is
      shown as is, and a fetched list is shown once its store succeeds. */
  lemma LoadDecision(s: PageState, initOk: bool, token: Option<string>, idb: DbRequests, fetch: FetchOutcome,
                     languagesOf: Normalize.GitHubRepo -> Normalize.LanguageFetch, now: int)
    requires initOk && HasToken(token)
    ensures var r := LoadRepositories(s, initOk, token, idb, fetch, languagesOf, now);
            var cached := Cache.GetRepositories(s.db);
            && (!idb.readOk ==> r.0 == DemoAfterError(s))
            && (idb.readOk && |cached| > 0 ==> r.0.repositories == cached && !r.0.isDemo && !r.0.isLoading)
            && (idb.readOk && |cached| == 0 && fetch.FetchFailed? ==> r.0 == DemoAfterError(s))
            && (idb.readOk && |cached| == 0 && fetch.Fetched? && |fetch.raw| > 0 && idb.storeOk ==>
                  && r.0.repositories == Normalize.ProcessRepositoryData(fetch.raw, languagesOf, now)
                  && !r.0.isDemo && !r.0.isLoading && r.0.errorMessage.None?
                  && r.0.db == Cache.StoreRepositories(s.db, r.0.repositories, now))
            && (idb.readOk && |cached| == 0 && fetch.Fetched? && |fetch.raw| > 0 && !idb.storeOk ==>
                  && r.0.repositories == DemoRepositories && r.0.isDemo && !r.0.isLoading
                  && r.0.errorMessage == Some(LoadFailedMessage)
                  && r.0.db.repositories == s.db.repositories)
  {
  }

  /** After a first fetch the shown list is cached under its names when the
      store succeeds; when it is rejected the demo data shows and the cache
      still holds no repository, although its update time was stamped. */
  lemma FetchedListIsCached(s: PageState, token: Option<string>, storeOk: bool, raw: seq<Normalize.GitHubRepo>,
                            languagesOf: Normalize.GitHubRepo -> Normalize.LanguageFetch, now: int)
    requires HasToken(token) && |Cache.GetRepositories(s.db)| == 0 && |raw| > 0
    ensures var r := LoadRepositories(s, true, token, DbRequests(true, storeOk), Fetched(raw), languagesOf, now);
            && (storeOk ==> !r.0.isDemo && (forall x :: x in r.0.repositories ==> Cache.GetRepository(r.0.db, x.name).Some?))
            && (!storeOk ==> r.0.isDemo && |Cache.GetRepositories(r.0.db)| == 0)
            && !Cache.IsDataExpired(r.0.db, now)
  {
    var processed := Normalize.ProcessRepositoryData(raw, languagesOf, now);
    Cache.StoredRecordsAreFound(s.db, processed, now);
  }

  /** Fetching an empty account list never finishes the load: the awaited
      store of no records does not settle, so the spinner stays. */
  lemma EmptyAccountKeepsLoading(s: PageState, token: Option<string>, idb: DbRequests,
                                 languagesOf: Normalize.GitHubRepo -> Normalize.LanguageFetch, now: int)
    requires HasToken(token) && idb.readOk && |Cache.GetRepositories(s.db)| == 0
    ensures LoadRepositories(s, true, token, idb, Fetched([]), languagesOf, now).0.isLoading
  {
  }

  /** As written, a cache stored a moment ago still triggers a refresh from
      GitHub; with the intended test it does not. */
  lemma FreshCacheStillRefreshed(db: Cache.Db, list: seq<Repository>, token: Option<string>, idb: DbRequests, fetch: FetchOutcome,
                                 languagesOf: Normalize.GitHubRepo -> Normalize.LanguageFetch, now: int)
    requires HasToken(token) && idb.readOk && |list| > 0
    ensures var stored := Cache.StoreRepositories(db, list, now);
            && LoadRepositoriesAsWritten(Initial(stored), true, token, idb, fetch, languagesOf, now).1.backgroundRefresh
            && !LoadRepositories(Initial(stored), true, token, idb, fetch, languagesOf, now).1.backgroundRefresh
  {
    var stored := Cache.StoreRepositories(db, list, now);
    Cache.StoredRecordsAreFound(db, list, now);
    assert Cache.GetRepository(stored, list[0].name).Some?;
    assert |stored.repositories| > 0;
  }

  /** Normalises the fetched list and awaits its store: the list is shown
      only once every record was stored. */
  function FetchAndStore(s: PageState, raw: seq<Normalize.GitHubRepo>, storeOk: bool,
                         languagesOf: Normalize.GitHubRepo -> Normalize.LanguageFetch, now: int): (r: StoreResult)
    ensures r.StorePending? <==> |raw| == 0
    ensures r.StoreFailed? <==> |raw| > 0 && !storeOk
    ensures r.Stored? ==> r.state.repositories == Normalize.ProcessRepositoryData(raw, languagesOf, now)
                          && !r.state.isDemo
                          && r.state.db == Cache.StoreRepositories(s.db, r.state.repositories, now)
                          && r.state == s.(repositories := r.state.repositories, isDemo := false, db := r.state.db)
    ensures r.StoreFailed? ==> r.db == Cache.StoreRejected(s.db, now)
    ensures r.StorePending? ==> r.db == Cache.StoreRepositories(s.db, [], now)
  {
    var processed := Normalize.ProcessRepositoryData(raw, languagesOf, now);
    if !Cache.StoreSettles(processed) then StorePending(Cache.StoreRepositories(s.db, processed, now))
    else if !storeOk then StoreFailed(Cache.StoreRejected(s.db, now))
    else Stored(s.(repositories := processed, isDemo := false, db := Cache.StoreRepositories(s.db, processed, now)))
  }

  /** `refreshRepositoriesInBackground`: silent; without a token or on any
      failure the page shows exactly what it showed before. */
  function RefreshInBackground(s: PageState, token: Option<string>, fetch: FetchOutcome, storeOk: bool,
                               languagesOf: Normalize.GitHubRepo -> Normalize.LanguageFetch, now: int): (r: PageState)
    ensures !HasToken(token) || fetch.FetchFailed? ==> r == s
    ensures HasToken(token) && fetch.Fetched? && |fetch.raw| > 0 && !storeOk ==> r == s.(db := Cache.StoreRejected(s.db, now))
    ensures r.errorMessage == s.errorMessage && r.isLoading == s.isLoading && r.isRefreshing == s.isRefreshing
    ensures r.repositories != s.repositories ==>
              storeOk && exists raw :: fetch == Fetched(raw) && r.repositories == Normalize.ProcessRepositoryData(raw, languagesOf, now)
    ensures r.isDemo ==> s.isDemo
  {
    if !HasToken(token) then s
    else match fetch
      case FetchFailed => s
      case Fetched(raw) =>
        match FetchAndStore(s, raw, storeOk, languagesOf, now)
        case Stored(t) => t
        case StoreFailed(db) => s.(db := db)
        case StorePending(db) => s.(db := db)
  }

  /** `refreshRepositories`, the explicit refresh. */
  function RefreshRepositories(s: PageState, token: Option<string>, fetch: FetchOutcome, storeOk: bool,
                               languagesOf: Normalize.GitHubRepo -> Normalize.LanguageFetch, now: int): (r: PageState)
    ensures !HasToken(token) ==> r == s.(errorMessage := Some(TokenRequiredMessage), isRefreshing := false)
    ensures HasToken(token) && fetch.FetchFailed? ==> r == s.(errorMessage := Some(RefreshFailedMessage), isRefreshing := false)
    ensures HasToken(token) && fetch.Fetched? && |fetch.raw| > 0 && !storeOk ==>
              r == s.(errorMessage := Some(RefreshFailedMessage), isRefreshing := false, db := Cache.StoreRejected(s.db, now))
    ensures r.isRefreshing <==> HasToken(token) && fetch == Fetched([])
    ensures r.errorMessage.None? ==> HasToken(token) && fetch.Fetched? && (storeOk || fetch.raw == [])
    ensures r.isLoading == s.isLoading
  {
    if !HasToken(token) then s.(errorMessage := Some(TokenRequiredMessage), isRefreshing := false)
    else
      var s1 := s.(isRefreshing := true, errorMessage := None);
      match fetch
      case FetchFailed => s.(errorMessage := Some(RefreshFailedMessage), isRefreshing := false)
      case Fetched(raw) =>
        match FetchAndStore(s1, raw, storeOk, languagesOf, now)
        case Stored(t) => t.(isRefreshing := false)
        case StoreFailed(db) => s.(errorMessage := Some(RefreshFailedMessage), isRefreshing := false, db := db)
        case StorePending(db) => s1.(db := db)
  }

  /** A successful explicit refresh shows exactly the normalised fetch and
      caches it; a rejected store keeps the list on screen and reports the
      refresh error. */
  lemma RefreshShowsFetched(s: PageState, token: Option<string>, raw: seq<Normalize.GitHubRepo>, storeOk: bool,
                            languagesOf: Normalize.GitHubRepo -> Normalize.LanguageFetch, now: int)
    requires HasToken(token) && |raw| > 0
    ensures var r := RefreshRepositories(s, token, Fetched(raw), storeOk, languagesOf, now);
            && !r.isRefreshing
            && (storeOk ==>
                  && |r.repositories| == |raw|
                  && (forall i :: 0 <= i < |raw| ==> Normalize.NormalizedFrom(r.repositories[i], raw[i], now))
                  && !r.isDemo && r.errorMessage.None?
                  && (forall x :: x in r.repositories ==> Cache.GetRepository(r.db, x.name).Some?))
            && (!storeOk ==>
                  && r.repositories == s.repositories && r.isDemo == s.isDemo
                  && r.errorMessage == Some(RefreshFailedMessage)
                  && r.db.repositories == s.db.repositories)
  {
    var processed := Normalize.ProcessRepositoryData(raw, languagesOf, now);
    Cache.StoredRecordsAreFound(s.db, processed, now);
  }
}
