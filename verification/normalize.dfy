/** The dashboard's conversion of GitHub REST records into `Repository`
    values (`processRepositoryData` in the Next.js page), including the
    per-repository language request whose failure yields an empty breakdown. */
module Normalize {
  import opened Wrappers
  import opened Repos
  import Seqs

  /** The fields of a `GET /user/repos` entry that the page reads. */
  datatype GitHubRepo = GitHubRepo(
    name: string,
    htmlUrl: string,
    description: Option<string>,
    createdAt: int,
    updatedAt: int,
    pushedAt: int,
    archived: bool,
    size: nat,
    isPrivate: bool)

  /** One entry of a language breakdown, in the order the response lists it. */
  datatype LanguageBytes = LanguageBytes(language: string, bytes: int)

  /** Outcome of the request to a repository's `languages_url`. */
  datatype LanguageFetch = LanguagesOk(entries: seq<LanguageBytes>) | LanguagesFailed

  function Bytes(e: LanguageBytes): int { e.bytes }

  /** `fetchRepositoryLanguages`: a failed request is reported as `{}`. */
  function FetchedLanguages(f: LanguageFetch): (entries: seq<LanguageBytes>)
    ensures f.LanguagesFailed? ==> entries == []
    ensures f.LanguagesOk? ==> entries == f.entries
  {
    match f
    case LanguagesOk(es) => es
    case LanguagesFailed => []
  }

  /** Sort the breakdown by byte count, largest first, and take the first
      entry's name; `"None"` when the breakdown is empty. */
  function PrimaryLanguage(entries: seq<LanguageBytes>): string {
    if |entries| == 0 then NoLanguage
    else Seqs.SortDesc(entries, Bytes)[0].language
  }

  /** `lang` is the language of the first entry with the largest byte count,
      or the sentinel when there are no entries. */
  ghost predicate IsPrimaryLanguageOf(lang: string, entries: seq<LanguageBytes>) {
    if |entries| == 0 then lang == NoLanguage
    else exists i :: Seqs.IsFirstMax(entries, Bytes, i) && entries[i].language == lang
  }

  lemma PrimaryLanguageIsLargest(entries: seq<LanguageBytes>)
    ensures IsPrimaryLanguageOf(PrimaryLanguage(entries), entries)
  {
    if |entries| > 0 {
      Seqs.SortDescHeadIsFirstMax(entries, Bytes);
    }
  }

  /** A failed language request leaves the repository without a language. */
  lemma FailedLanguagesGiveNone()
    ensures PrimaryLanguage(FetchedLanguages(LanguagesFailed)) == NoLanguage
  {
  }

  /** The same choice made in one pass: keep the first entry whose byte count
      beats every earlier one. */
  method PickPrimaryLanguage(entries: seq<LanguageBytes>) returns (lang: string)
    ensures lang == PrimaryLanguage(entries)
    ensures IsPrimaryLanguageOf(lang, entries)
  {
    if |entries| == 0 {
      return NoLanguage;
    }
    var best := 0;
    var k := 1;
    while k < |entries|
      invariant 1 <= k <= |entries|
      invariant Seqs.IsFirstMax(entries[..k], Bytes, best)
    {
      if entries[k].bytes > entries[best].bytes {
        best := k;
      }
      k := k + 1;
    }
    assert entries[..k] == entries;
    lang := entries[best].language;
    PrimaryLanguageIsLargest(entries);
    ghost var i :| Seqs.IsFirstMax(entries, Bytes, i) && entries[i].language == PrimaryLanguage(entries);
    Seqs.FirstMaxUnique(entries, Bytes, i, best);
  }

  /** The normalised record of one repository at time `now`. */
  function NormalizeRepository(raw: GitHubRepo, languages: LanguageFetch, now: int): (r: Repository)
    ensures NormalizedFrom(r, raw, now)
    ensures IsPrimaryLanguageOf(r.primaryLanguage, FetchedLanguages(languages))
    ensures languages.LanguagesFailed? ==> r.primaryLanguage == NoLanguage
  {
    PrimaryLanguageIsLargest(FetchedLanguages(languages));
    var days := DaysSince(now, raw.pushedAt);
    Repository(
      name := raw.name,
      url := raw.htmlUrl,
      description := Some(raw.description.GetOr("")),
      isArchived := raw.archived,
      diskUsage := raw.size,
      visibility := if raw.isPrivate then Private else Public,
      createdAt := raw.createdAt,
      updatedAt := raw.updatedAt,
      pushedAt := raw.pushedAt,
      daysSinceLastPush := days,
      inactive := days > InactiveAfterDays,
      primaryLanguage := PrimaryLanguage(FetchedLanguages(languages)))
  }

  /** `r` is the record the page builds from `raw`: provider fields copied,
      an absent description read as empty, visibility taken from `private`,
      and the activity fields derived at `now`. */
  predicate NormalizedFrom(r: Repository, raw: GitHubRepo, now: int) {
    && r.name == raw.name
    && r.url == raw.htmlUrl
    && r.description == Some(if raw.description == None then "" else raw.description.value)
    && r.isArchived == raw.archived
    && r.diskUsage == raw.size
    && (r.visibility == Private <==> raw.isPrivate)
    && r.createdAt == raw.createdAt
    && r.updatedAt == raw.updatedAt
    && r.pushedAt == raw.pushedAt
    && ActivityDerived(r, now)
  }

  /** `processRepositoryData`: one record per listed repository, in order.
      `languagesOf` stands for the language request made for each one. */
  function ProcessRepositoryData(repos: seq<GitHubRepo>, languagesOf: GitHubRepo -> LanguageFetch, now: int): (out: seq<Repository>)
    ensures |out| == |repos|
    ensures forall i :: 0 <= i < |repos| ==> NormalizedFrom(out[i], repos[i], now)
    ensures forall i :: 0 <= i < |repos| ==> out[i].primaryLanguage == PrimaryLanguage(FetchedLanguages(languagesOf(repos[i])))
  {
    if |repos| == 0 then []
    else [NormalizeRepository(repos[0], languagesOf(repos[0]), now)] + ProcessRepositoryData(repos[1..], languagesOf, now)
  }

  /** Each record's primary language has the largest byte count in its
      repository's breakdown, and is `"None"` when the breakdown is empty or
      could not be fetched. */
  lemma ProcessedLanguagesAreLargest(repos: seq<GitHubRepo>, languagesOf: GitHubRepo -> LanguageFetch, now: int)
    ensures forall i :: 0 <= i < |repos| ==>
      IsPrimaryLanguageOf(ProcessRepositoryData(repos, languagesOf, now)[i].primaryLanguage, FetchedLanguages(languagesOf(repos[i])))
  {
    var out := ProcessRepositoryData(repos, languagesOf, now);
    forall i | 0 <= i < |repos|
      ensures IsPrimaryLanguageOf(out[i].primaryLanguage, FetchedLanguages(languagesOf(repos[i])))
    {
      PrimaryLanguageIsLargest(FetchedLanguages(languagesOf(repos[i])));
    }
  }
}
