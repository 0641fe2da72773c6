/** `calculateRepositorySummary`: counts by visibility, archival and
    activity, the total size, and the per-language repository histogram. */
module Summary {
  import opened Repos
  import Seqs

  /** One `languages[lang] = count` entry; a sequence of them keeps the
      insertion order of the JavaScript object. */
  datatype LanguageCount = LanguageCount(language: string, count: nat)

  datatype RepositorySummary = RepositorySummary(
    totalRepos: nat,
    privateRepos: nat,
    publicRepos: nat,
    archivedRepos: nat,
    inactiveRepos: nat,
    totalSizeKB: int,
    languages: seq<LanguageCount>)

  function LanguageIs(lang: string): Repository -> bool {
    (r: Repository) => r.primaryLanguage == lang
  }

  /** Number of repositories whose primary language is `lang`. */
  function CountLanguage(rs: seq<Repository>, lang: string): nat {
    Seqs.Count(rs, LanguageIs(lang))
  }

  function LanguagesOf(h: seq<LanguageCount>): set<string> {
    if |h| == 0 then {} else {h[0].language} + LanguagesOf(h[1..])
  }

  /** No language has two entries. */
  predicate DistinctLanguages(h: seq<LanguageCount>) {
    |h| == 0 || (h[0].language !in LanguagesOf(h[1..]) && DistinctLanguages(h[1..]))
  }

  lemma {:induction false} EntryInLanguages(h: seq<LanguageCount>, i: int)
    requires 0 <= i < |h|
    ensures h[i].language in LanguagesOf(h)
    decreases i
  {
    if i > 0 { EntryInLanguages(h[1..], i - 1); }
  }

  /** `languages[lang] || 0`. */
  function LookupCount(h: seq<LanguageCount>, lang: string): nat {
    if |h| == 0 then 0
    else if h[0].language == lang then h[0].count
    else LookupCount(h[1..], lang)
  }

  function SumCounts(h: seq<LanguageCount>): int {
    if |h| == 0 then 0 else h[0].count + SumCounts(h[1..])
  }

  /** `languages[lang] = (languages[lang] || 0) + 1`. */
  function Bump(h: seq<LanguageCount>, lang: string): seq<LanguageCount> {
    if |h| == 0 then [LanguageCount(lang, 1)]
    else if h[0].language == lang then [LanguageCount(lang, h[0].count + 1)] + h[1..]
    else [h[0]] + Bump(h[1..], lang)
  }

  lemma {:induction false} BumpCounts(h: seq<LanguageCount>, lang: string)
    requires DistinctLanguages(h)
    ensures DistinctLanguages(Bump(h, lang))
    ensures LanguagesOf(Bump(h, lang)) == LanguagesOf(h) + {lang}
    ensures forall l :: LookupCount(Bump(h, lang), l) == LookupCount(h, l) + (if l == lang then 1 else 0)
    ensures SumCounts(Bump(h, lang)) == SumCounts(h) + 1
    decreases |h|
  {
    if |h| > 0 && h[0].language != lang {
      BumpCounts(h[1..], lang);
    }
  }

  /** The language histogram after the first `|rs|` repositories, built
      front to back as the `forEach` loop does. */
  function Histogram(rs: seq<Repository>): seq<LanguageCount>
    decreases |rs|
  {
    if |rs| == 0 then []
    else
      var h := Histogram(rs[..|rs| - 1]);
      var lang := rs[|rs| - 1].primaryLanguage;
      if IsRealLanguage(lang) then Bump(h, lang) else h
  }

  lemma CountSnoc(rs: seq<Repository>, p: Repository -> bool)
    requires |rs| > 0
    ensures Seqs.Count(rs, p) == Seqs.Count(rs[..|rs| - 1], p) + (if p(rs[|rs| - 1]) then 1 else 0)
  {
    Seqs.CountConcat(rs[..|rs| - 1], [rs[|rs| - 1]], p);
    assert rs[..|rs| - 1] + [rs[|rs| - 1]] == rs;
  }

  /** The histogram has one entry per real language that occurs, each holding
      that language's repository count (so at least 1), and its counts add up
      to the number of repositories that have a real language. */
  lemma {:induction false} HistogramCounts(rs: seq<Repository>)
    ensures DistinctLanguages(Histogram(rs))
    ensures forall l :: l in LanguagesOf(Histogram(rs)) <==> IsRealLanguage(l) && CountLanguage(rs, l) > 0
    ensures forall l :: LookupCount(Histogram(rs), l) == if IsRealLanguage(l) then CountLanguage(rs, l) else 0
    ensures SumCounts(Histogram(rs)) == Seqs.Count(rs, HasRealLanguage)
    decreases |rs|
  {
    if |rs| > 0 {
      var init := rs[..|rs| - 1];
      var last := rs[|rs| - 1];
      HistogramCounts(init);
      CountSnoc(rs, HasRealLanguage);
      forall l ensures CountLanguage(rs, l) == CountLanguage(init, l) + (if last.primaryLanguage == l then 1 else 0) {
        CountSnoc(rs, LanguageIs(l));
      }
      if IsRealLanguage(last.primaryLanguage) {
        BumpCounts(Histogram(init), last.primaryLanguage);
      }
    }
  }

  /** In a histogram with distinct keys, every entry's count is the lookup
      of its own language. */
  lemma {:induction false} EntryIsLookup(h: seq<LanguageCount>, i: int)
    requires DistinctLanguages(h) && 0 <= i < |h|
    ensures LookupCount(h, h[i].language) == h[i].count
    decreases i
  {
    if i > 0 {
      EntryIsLookup(h[1..], i - 1);
      EntryInLanguages(h[1..], i - 1);
    }
  }

  /** Keys of the summary's `languages` exclude `"None"` and the empty
      string, every count is at least 1, every count is that language's
      number of repositories, and the counts add up to the number of
      repositories with a real language. */
  lemma HistogramEntries(rs: seq<Repository>)
    ensures forall i :: 0 <= i < |Histogram(rs)| ==>
      && IsRealLanguage(Histogram(rs)[i].language)
      && Histogram(rs)[i].count == CountLanguage(rs, Histogram(rs)[i].language)
      && Histogram(rs)[i].count >= 1
    ensures SumCounts(Histogram(rs)) == Seqs.Count(rs, HasRealLanguage)
  {
    var h := Histogram(rs);
    HistogramCounts(rs);
    forall i | 0 <= i < |h|
      ensures IsRealLanguage(h[i].language) && h[i].count == CountLanguage(rs, h[i].language) && h[i].count >= 1
    {
      EntryInLanguages(h, i);
      EntryIsLookup(h, i);
    }
  }

  /** `calculateRepositorySummary`: each counter is the number of
      repositories that pass its test, and the size total adds every
      repository's size. */
  function CalculateRepositorySummary(rs: seq<Repository>): (s: RepositorySummary)
    ensures s.totalRepos == |rs|
    ensures s.privateRepos == |Seqs.Filter(rs, IsPrivate)| && s.publicRepos == |Seqs.Filter(rs, IsPublic)|
    ensures s.archivedRepos == |Seqs.Filter(rs, IsArchived)| && s.inactiveRepos == |Seqs.Filter(rs, IsInactive)|
    ensures s.privateRepos + s.publicRepos == s.totalRepos
    ensures s.archivedRepos <= s.totalRepos && s.inactiveRepos <= s.totalRepos
    ensures s.totalSizeKB == Seqs.SumOf(rs, SizeKB)
  {
    Seqs.CountComplement(rs, IsPrivate, IsPublic);
    Seqs.CountIsFilterLength(rs, IsPrivate);
    Seqs.CountIsFilterLength(rs, IsPublic);
    Seqs.CountIsFilterLength(rs, IsArchived);
    Seqs.CountIsFilterLength(rs, IsInactive);
    RepositorySummary(
      totalRepos := |rs|,
      privateRepos := Seqs.Count(rs, IsPrivate),
      publicRepos := Seqs.Count(rs, IsPublic),
      archivedRepos := Seqs.Count(rs, IsArchived),
      inactiveRepos := Seqs.Count(rs, IsInactive),
      totalSizeKB := Seqs.SumOf(rs, SizeKB),
      languages := Histogram(rs))
  }

  /** Reordering the repositories changes no count, no total and no
      language's count; only the key order of `languages` can differ. */
  lemma SummaryPermutationInvariant(a: seq<Repository>, b: seq<Repository>)
    requires multiset(a) == multiset(b)
    ensures CalculateRepositorySummary(a).(languages := []) == CalculateRepositorySummary(b).(languages := [])
    ensures forall l :: LookupCount(CalculateRepositorySummary(a).languages, l) == LookupCount(CalculateRepositorySummary(b).languages, l)
    ensures LanguagesOf(CalculateRepositorySummary(a).languages) == LanguagesOf(CalculateRepositorySummary(b).languages)
  {
    assert |a| == |multiset(a)| == |multiset(b)| == |b|;
    Seqs.CountPermutation(a, b, IsPrivate);
    Seqs.CountPermutation(a, b, IsPublic);
    Seqs.CountPermutation(a, b, IsArchived);
    Seqs.CountPermutation(a, b, IsInactive);
    Seqs.SumOfPermutation(a, b, SizeKB);
    forall l ensures CountLanguage(a, l) == CountLanguage(b, l) {
      Seqs.CountPermutation(a, b, LanguageIs(l));
    }
    HistogramCounts(a);
    HistogramCounts(b);
  }
}
