/** The dashboard page's `applyFilters`: a search box and three selectors
    (visibility, activity, language) applied one after another to the loaded
    repositories. */
module Filters {
  import opened Wrappers
  import opened Repos
  import Text
  import Seqs

  /** The four filter controls; `"all"` and the empty search switch a
      control off. */
  datatype Criteria = Criteria(searchTerm: string, visibility: string, activity: string, language: string)

  const AllValues: string := "all"
  const NoFilters: Criteria := Criteria("", AllValues, AllValues, AllValues)

  /** Case-insensitive match of an already lower-cased `term` against the
      name, or against a non-empty description. */
  predicate SearchMatches(term: string, r: Repository) {
    || Text.Contains(Text.ToLower(r.name), term)
    || (r.description.Some? && r.description.value != "" && Text.Contains(Text.ToLower(r.description.value), term))
  }

  predicate VisibilityMatches(v: string, r: Repository) {
    VisibilityLabel(r.visibility) == v
  }

  predicate LanguageMatches(lang: string, r: Repository) {
    r.primaryLanguage == lang
  }

  /** What the page's activity selector keeps: an unrecognised value keeps
      everything, and `"archived"` keeps archived repositories whatever their
      activity. */
  predicate ActivityAllows(a: string, r: Repository) {
    if a == "active" then !r.inactive
    else if a == "inactive" then r.inactive
    else if a == "archived" then r.isArchived
    else true
  }

  /** The conjunction the four steps implement, as one predicate. */
  predicate Matches(c: Criteria, r: Repository) {
    && (c.searchTerm == "" || SearchMatches(Text.ToLower(c.searchTerm), r))
    && (c.visibility == AllValues || VisibilityMatches(c.visibility, r))
    && (c.activity == AllValues || ActivityAllows(c.activity, r))
    && (c.language == AllValues || LanguageMatches(c.language, r))
  }

  function SearchStep(s: seq<Repository>, c: Criteria): seq<Repository> {
    if c.searchTerm != "" then
      var term := Text.ToLower(c.searchTerm);
      Seqs.Filter(s, (r: Repository) => SearchMatches(term, r))
    else s
  }

  function VisibilityStep(s: seq<Repository>, c: Criteria): seq<Repository> {
    if c.visibility != AllValues then Seqs.Filter(s, (r: Repository) => VisibilityMatches(c.visibility, r))
    else s
  }

  function ActivityStep(s: seq<Repository>, c: Criteria): seq<Repository> {
    if c.activity != AllValues then
      if c.activity == "active" then Seqs.Filter(s, (r: Repository) => !r.inactive)
      else if c.activity == "inactive" then Seqs.Filter(s, IsInactive)
      else if c.activity == "archived" then Seqs.Filter(s, IsArchived)
      else s
    else s
  }

  function LanguageStep(s: seq<Repository>, c: Criteria): seq<Repository> {
    if c.language != AllValues then Seqs.Filter(s, (r: Repository) => LanguageMatches(c.language, r))
    else s
  }

  /** `applyFilters`: search, then visibility, then activity, then language. */
  function ApplyFilters(rs: seq<Repository>, c: Criteria): (r: seq<Repository>)
    ensures |r| <= |rs|
    ensures forall x :: x in r ==> x in rs && Matches(c, x)
  {
    LanguageStep(ActivityStep(VisibilityStep(SearchStep(rs, c), c), c), c)
  }

  function MatchesFn(c: Criteria): Repository -> bool {
    (r: Repository) => Matches(c, r)
  }

  function SearchOk(c: Criteria): Repository -> bool {
    (r: Repository) => c.searchTerm == "" || SearchMatches(Text.ToLower(c.searchTerm), r)
  }

  function VisibilityOk(c: Criteria): Repository -> bool {
    (r: Repository) => c.visibility == AllValues || VisibilityMatches(c.visibility, r)
  }

  function ActivityOk(c: Criteria): Repository -> bool {
    (r: Repository) => c.activity == AllValues || ActivityAllows(c.activity, r)
  }

  function LanguageOk(c: Criteria): Repository -> bool {
    (r: Repository) => c.language == AllValues || LanguageMatches(c.language, r)
  }

  function SearchAndVisibilityOk(c: Criteria): Repository -> bool {
    (r: Repository) => SearchOk(c)(r) && VisibilityOk(c)(r)
  }

  function FirstThreeOk(c: Criteria): Repository -> bool {
    (r: Repository) => SearchAndVisibilityOk(c)(r) && ActivityOk(c)(r)
  }

  lemma SearchStepIsFilter(s: seq<Repository>, c: Criteria)
    ensures SearchStep(s, c) == Seqs.Filter(s, SearchOk(c))
  {
    var term := Text.ToLower(c.searchTerm);
    Seqs.FilterWhen(s, c.searchTerm != "", (r: Repository) => SearchMatches(term, r), SearchOk(c));
  }

  lemma VisibilityStepIsFilter(s: seq<Repository>, c: Criteria)
    ensures VisibilityStep(s, c) == Seqs.Filter(s, VisibilityOk(c))
  {
    Seqs.FilterWhen(s, c.visibility != AllValues, (r: Repository) => VisibilityMatches(c.visibility, r), VisibilityOk(c));
  }

  lemma LanguageStepIsFilter(s: seq<Repository>, c: Criteria)
    ensures LanguageStep(s, c) == Seqs.Filter(s, LanguageOk(c))
  {
    Seqs.FilterWhen(s, c.language != AllValues, (r: Repository) => LanguageMatches(c.language, r), LanguageOk(c));
  }

  lemma ActivityStepIsFilter(s: seq<Repository>, c: Criteria)
    ensures ActivityStep(s, c) == Seqs.Filter(s, ActivityOk(c))
  {
    var q := ActivityOk(c);
    if c.activity == AllValues || (c.activity != "active" && c.activity != "inactive" && c.activity != "archived") {
      Seqs.FilterKeepsAll(s, q);
    } else if c.activity == "active" {
      Seqs.FilterCongruent(s, (r: Repository) => !r.inactive, q);
    } else if c.activity == "inactive" {
      Seqs.FilterCongruent(s, IsInactive, q);
    } else {
      Seqs.FilterCongruent(s, IsArchived, q);
    }
  }

  /** The four filters in a row keep exactly the repositories that satisfy
      all four predicates, in their original order. */
  lemma FirstTwoStepsAreFilter(rs: seq<Repository>, c: Criteria)
    ensures VisibilityStep(SearchStep(rs, c), c) == Seqs.Filter(rs, SearchAndVisibilityOk(c))
  {
    SearchStepIsFilter(rs, c);
    VisibilityStepIsFilter(Seqs.Filter(rs, SearchOk(c)), c);
    Seqs.FilterFuse(rs, SearchOk(c), VisibilityOk(c), SearchAndVisibilityOk(c));
  }

  lemma FirstThreeStepsAreFilter(rs: seq<Repository>, c: Criteria)
    ensures ActivityStep(VisibilityStep(SearchStep(rs, c), c), c) == Seqs.Filter(rs, FirstThreeOk(c))
  {
    FirstTwoStepsAreFilter(rs, c);
    ActivityStepIsFilter(Seqs.Filter(rs, SearchAndVisibilityOk(c)), c);
    Seqs.FilterFuse(rs, SearchAndVisibilityOk(c), ActivityOk(c), FirstThreeOk(c));
  }

  lemma ApplyFiltersIsConjunction(rs: seq<Repository>, c: Criteria)
    ensures ApplyFilters(rs, c) == Seqs.Filter(rs, MatchesFn(c))
  {
    FirstThreeStepsAreFilter(rs, c);
    LanguageStepIsFilter(Seqs.Filter(rs, FirstThreeOk(c)), c);
    forall r ensures MatchesFn(c)(r) == (FirstThreeOk(c)(r) && LanguageOk(c)(r)) {
      assert SearchAndVisibilityOk(c)(r) == (SearchOk(c)(r) && VisibilityOk(c)(r));
    }
    Seqs.FilterFuse(rs, FirstThreeOk(c), LanguageOk(c), MatchesFn(c));
  }

  /** `applyFilters` keeps an order-preserving subsequence of the loaded
      repositories, keeps a repository exactly when it satisfies every active
      control, and with every control off returns the list unchanged. */
  lemma ApplyFiltersProperties(rs: seq<Repository>, c: Criteria)
    ensures Seqs.IsSubsequence(ApplyFilters(rs, c), rs)
    ensures forall r :: r in ApplyFilters(rs, c) <==> r in rs && Matches(c, r)
    ensures c == NoFilters ==> ApplyFilters(rs, c) == rs
  {
    ApplyFiltersIsConjunction(rs, c);
    Seqs.FilterIsSubsequence(rs, MatchesFn(c));
    if c == NoFilters {
      Seqs.FilterKeepsAll(rs, MatchesFn(c));
    }
  }

  /** With the activity selector on `"archived"`, the page shows archived
      repositories whether they count as active or inactive. */
  lemma ArchivedSelectionKeepsArchived(rs: seq<Repository>)
    ensures ApplyFilters(rs, NoFilters.(activity := "archived")) == Seqs.Filter(rs, IsArchived)
  {
    var c := NoFilters.(activity := "archived");
    ApplyFiltersIsConjunction(rs, c);
    Seqs.FilterCongruent(rs, MatchesFn(c), IsArchived);
  }
}
