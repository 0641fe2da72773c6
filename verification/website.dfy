/** The static dashboard (`main.js`): language options, the summary cards,
    the filter in `renderRepositories`, the status badge, the header
    checkbox, select/deselect-all and the outcome of a bulk delete. The
    repositories it shows are the ones the refresh script wrote. */
module Website {
  import opened Wrappers
  import opened Repos
  import Text
  import Seqs
  import Summary
  import Selection
  import Filters
  import RepoManager
  import ApiCgi

  /** The distinct real languages of the loaded repositories. */
  function LanguageSet(rs: seq<Repository>): set<string> {
    set i | 0 <= i < |rs| && HasRealLanguage(rs[i]) :: rs[i].primaryLanguage
  }

  /** `populateLanguageFilter`: the language set in ascending order. */
  function LanguageOptions(rs: seq<Repository>): (r: seq<string>)
    ensures Text.StrictlySorted(r)
    ensures forall l :: l in r <==> exists i :: 0 <= i < |rs| && rs[i].primaryLanguage == l && IsRealLanguage(l)
    ensures NoLanguage !in r && "" !in r
  {
    Text.SortedElements(LanguageSet(rs))
  }

  /** Strict ascending order means no option appears twice. */
  lemma LanguageOptionsDistinct(rs: seq<Repository>)
    ensures forall i, j :: 0 <= i < j < |LanguageOptions(rs)| ==> LanguageOptions(rs)[i] != LanguageOptions(rs)[j]
  {
    var r := LanguageOptions(rs);
    forall i, j | 0 <= i < j < |r| ensures r[i] != r[j] {
      Text.LessIrreflexive(r[i]);
    }
  }

  /** The counters `updateSummary` writes (the float MB total is left out). */
  datatype Counters = Counters(total: nat, privateRepos: nat, publicRepos: nat, archived: nat, inactive: nat)

  /** `updateSummary`: each counter is the number of repositories that pass
      its test. */
  function UpdateSummary(rs: seq<Repository>): (c: Counters)
    ensures c.total == |rs|
    ensures c.privateRepos == |Seqs.Filter(rs, IsPrivate)| && c.publicRepos == |Seqs.Filter(rs, IsPublic)|
    ensures c.archived == |Seqs.Filter(rs, IsArchived)| && c.inactive == |Seqs.Filter(rs, IsInactive)|
    ensures c.privateRepos + c.publicRepos == c.total
    ensures c.archived <= c.total && c.inactive <= c.total
  {
    Seqs.CountComplement(rs, IsPrivate, IsPublic);
    Seqs.CountIsFilterLength(rs, IsPrivate);
    Seqs.CountIsFilterLength(rs, IsPublic);
    Seqs.CountIsFilterLength(rs, IsArchived);
    Seqs.CountIsFilterLength(rs, IsInactive);
    Counters(|rs|, Seqs.Count(rs, IsPrivate), Seqs.Count(rs, IsPublic), Seqs.Count(rs, IsArchived), Seqs.Count(rs, IsInactive))
  }

  /** Both dashboards report the same five counts for the same list. */
  lemma UpdateSummaryAgreesWithPage(rs: seq<Repository>)
    ensures var c := UpdateSummary(rs);
            var s := Summary.CalculateRepositorySummary(rs);
            c == Counters(s.totalRepos, s.privateRepos, s.publicRepos, s.archivedRepos, s.inactiveRepos)
  {
  }

  /** The activity test of `renderRepositories`: only `"all"`, `"active"`
      and `"inactive"` match anything. */
  predicate ActivityMatches(a: string, r: Repository) {
    || a == Filters.AllValues
    || (a == "active" && !r.inactive)
    || (a == "inactive" && r.inactive)
  }

  /** The four tests of `renderRepositories`, with no shortcut for an empty
      search term. */
  predicate RowMatches(c: Filters.Criteria, r: Repository) {
    && Filters.SearchMatches(Text.ToLower(c.searchTerm), r)
    && (c.visibility == Filters.AllValues || Filters.VisibilityMatches(c.visibility, r))
    && ActivityMatches(c.activity, r)
    && (c.language == Filters.AllValues || Filters.LanguageMatches(c.language, r))
  }

  function RowMatchesFn(c: Filters.Criteria): Repository -> bool {
    (r: Repository) => RowMatches(c, r)
  }

  /** The rows `renderRepositories` draws. */
  function RenderFilter(rs: seq<Repository>, c: Filters.Criteria): (r: seq<Repository>)
    ensures |r| <= |rs|
    ensures forall x :: x in r <==> x in rs && RowMatches(c, x)
  {
    Seqs.Filter(rs, RowMatchesFn(c))
  }

  /** The drawn rows keep the loaded order. */
  lemma RenderFilterIsSubsequence(rs: seq<Repository>, c: Filters.Criteria)
    ensures Seqs.IsSubsequence(RenderFilter(rs, c), rs)
  {
    Seqs.FilterIsSubsequence(rs, RowMatchesFn(c));
  }

  /** The empty search matches every row, so with every selector at `"all"`
      everything is drawn. */
  lemma RenderFilterNoFilters(rs: seq<Repository>)
    ensures RenderFilter(rs, Filters.NoFilters) == rs
  {
    forall x | x in rs ensures RowMatchesFn(Filters.NoFilters)(x) {
      Text.ContainsIffOccurs(Text.ToLower(x.name), "");
    }
    Seqs.FilterKeepsAll(rs, RowMatchesFn(Filters.NoFilters));
  }

  /** Any other activity value, `"archived"` among them, draws nothing. */
  lemma UnknownActivityDrawsNothing(rs: seq<Repository>, c: Filters.Criteria)
    requires c.activity !in {Filters.AllValues, "active", "inactive"}
    ensures RenderFilter(rs, c) == []
  {
    Seqs.CountNoneIff(rs, RowMatchesFn(c));
    Seqs.CountIsFilterLength(rs, RowMatchesFn(c));
  }

  /** For the three activity values both dashboards understand, they draw
      the same rows; they part only on the rest, `"archived"` included. */
  lemma RenderFilterAgreesWithPage(rs: seq<Repository>, c: Filters.Criteria)
    requires c.activity in {Filters.AllValues, "active", "inactive"}
    ensures RenderFilter(rs, c) == Filters.ApplyFilters(rs, c)
  {
    forall x ensures RowMatchesFn(c)(x) == Filters.MatchesFn(c)(x) {
      Text.ContainsIffOccurs(Text.ToLower(x.name), "");
    }
    Seqs.FilterCongruent(rs, RowMatchesFn(c), Filters.MatchesFn(c));
    Filters.ApplyFiltersIsConjunction(rs, c);
  }

  /** The archived selector keeps archived repositories on the page and none
      on the dashboard. */
  lemma ArchivedSelectorDiffers(r: Repository)
    requires r.isArchived
    ensures Filters.ApplyFilters([r], Filters.NoFilters.(activity := "archived")) == [r]
    ensures RenderFilter([r], Filters.NoFilters.(activity := "archived")) == []
  {
    var c := Filters.NoFilters.(activity := "archived");
    Filters.ApplyFiltersIsConjunction([r], c);
    Text.ContainsIffOccurs(Text.ToLower(r.name), "");
    assert Filters.MatchesFn(c)(r);
    UnknownActivityDrawsNothing([r], c);
  }

  datatype Badge = ArchivedBadge | InactiveBadge | PrivateBadge | PublicBadge

  /** Every badge that describes the repository. */
  function ApplicableBadges(r: Repository): set<Badge> {
    (if r.isArchived then {ArchivedBadge} else {})
    + (if r.inactive then {InactiveBadge} else {})
    + (if r.visibility == Private then {PrivateBadge} else {PublicBadge})
  }

  /** Precedence: a lower rank wins. */
  function Rank(b: Badge): nat {
    match b
    case ArchivedBadge => 0
    case InactiveBadge => 1
    case PrivateBadge => 2
    case PublicBadge => 3
  }

  /** The one badge a row shows. */
  function StatusBadge(r: Repository): (b: Badge)
    ensures b in ApplicableBadges(r)
    ensures forall o :: o in ApplicableBadges(r) ==> Rank(b) <= Rank(o)
  {
    if r.isArchived then ArchivedBadge
    else if r.inactive then InactiveBadge
    else if r.visibility == Private then PrivateBadge
    else PublicBadge
  }

  /** The badge is the unique highest-precedence description. */
  lemma StatusBadgeUnique(r: Repository, b: Badge)
    requires b in ApplicableBadges(r)
    requires forall o :: o in ApplicableBadges(r) ==> Rank(b) <= Rank(o)
    ensures b == StatusBadge(r)
  {
  }

  /** The header checkbox: `checked` and `indeterminate`. */
  datatype HeaderState = HeaderState(checked: bool, indeterminate: bool)

  function RowChecked(selected: set<string>): Repository -> bool {
    (r: Repository) => r.name in selected
  }

  /** `updateSelectAllCheckbox` over the drawn rows. */
  function UpdateSelectAllCheckbox(rows: seq<Repository>, selected: set<string>): (h: HeaderState)
    ensures !(h.checked && h.indeterminate)
    ensures h.checked <==> |rows| > 0 && forall i :: 0 <= i < |rows| ==> rows[i].name in selected
    ensures h.indeterminate <==>
              (exists i :: 0 <= i < |rows| && rows[i].name in selected) && (exists i :: 0 <= i < |rows| && rows[i].name !in selected)
  {
    var n := Seqs.Count(rows, RowChecked(selected));
    Seqs.CountAllIff(rows, RowChecked(selected));
    Seqs.CountNoneIff(rows, RowChecked(selected));
    HeaderState(|rows| > 0 && n == |rows|, n > 0 && n < |rows|)
  }

  /** The select-all button (and ticking the header): adds the drawn names. */
  function SelectAll(selected: set<string>, rows: seq<Repository>): (r: set<string>)
    ensures forall n :: n in r <==> n in selected || n in Selection.NamesOf(rows)
  {
    selected + Selection.NamesOf(rows)
  }

  /** The deselect-all button (and unticking the header): removes the drawn
      names. */
  function DeselectAll(selected: set<string>, rows: seq<Repository>): (r: set<string>)
    ensures forall n :: n in r <==> n in selected && n !in Selection.NamesOf(rows)
  {
    selected - Selection.NamesOf(rows)
  }

  /** Selections of rows that are not drawn survive both buttons, and the
      header then reads all-checked or all-clear. */
  lemma SelectButtonsFrame(selected: set<string>, rows: seq<Repository>, hidden: string)
    requires hidden !in Selection.NamesOf(rows)
    ensures hidden in SelectAll(selected, rows) <==> hidden in selected
    ensures hidden in DeselectAll(selected, rows) <==> hidden in selected
    ensures |rows| > 0 ==> UpdateSelectAllCheckbox(rows, SelectAll(selected, rows)) == HeaderState(true, false)
    ensures UpdateSelectAllCheckbox(rows, DeselectAll(selected, rows)) == HeaderState(false, false)
  {
    assert forall i :: 0 <= i < |rows| ==> rows[i].name in Selection.NamesOf(rows);
  }

  type ItemResult = RepoManager.ItemResult

  /** What the browser reads from the `/api.py` delete response. */
  datatype DeleteResponse = DeleteResponse(success: bool, message: string, results: Option<seq<ItemResult>>)

  datatype DeleteAlert =
    | DeletePartial(succeeded: nat, failed: int)
    | DeleteDone(succeeded: nat)
    | DeleteError(message: string)

  predicate ItemSucceeded(x: ItemResult) { x.success }

  /** The alert after a delete and whether the selection is cleared (and
      the data reloaded). */
  function DeleteOutcome(requested: nat, resp: DeleteResponse): (r: (DeleteAlert, bool))
    ensures r.1 <==> resp.success
    ensures !resp.success ==> r.0 == DeleteError(resp.message)
    ensures r.0.DeletePartial? ==> r.0.failed == requested - r.0.succeeded && r.0.failed > 0
    ensures r.0.DeleteDone? ==> r.0.succeeded >= requested
  {
    if !resp.success then (DeleteError(resp.message), false)
    else
      var ok := if resp.results.Some? then Seqs.Count(resp.results.value, ItemSucceeded) else 0;
      var failed := requested - ok;
      if failed > 0 then (DeletePartial(ok, failed), true) else (DeleteDone(ok), true)
  }

  /** With one entry per requested repository, the failure count is the
      number of failed entries, and "Partially completed" appears exactly
      when one failed. */
  lemma DeleteOutcomeCountsFailures(results: seq<ItemResult>, message: string)
    ensures var r := DeleteOutcome(|results|, DeleteResponse(true, message, Some(results)));
            var failures := Seqs.Count(results, (x: ItemResult) => !x.success);
            && (r.0.DeletePartial? <==> failures > 0)
            && (r.0.DeletePartial? ==> r.0.failed == failures)
            && (r.0.DeleteDone? ==> r.0.succeeded == |results|)
  {
    Seqs.CountComplement(results, ItemSucceeded, (x: ItemResult) => !x.success);
  }

  /** The endpoint's response object as the browser reads it. */
  function FromApi(r: ApiCgi.ApiResponse): (resp: DeleteResponse)
    ensures resp.success <==> ApiCgi.Success(r)
    ensures resp.message == r.message
    ensures resp.results.Some? <==> r.DeletionProcessed?
  {
    DeleteResponse(ApiCgi.Success(r), r.message,
                   if r.DeletionProcessed? then Some(r.results) else None)
  }

  /** Through the endpoint with the helper's progress off standard output,
      the alert reports a partial deletion exactly when `gh` refused some
      of the selected repositories, and counts them. */
  lemma {:induction false} DeleteAlertCountsRefusals(names: seq<string>, env: RepoManager.Environment)
    requires names != []
    requires forall i :: 0 <= i < |names| ==> Text.NoSeparator(names[i], RepoManager.Separator)
    ensures var resp := FromApi(ApiCgi.Main("delete", ApiCgi.NameList(names), env));
            var r := DeleteOutcome(|names|, resp);
            var refused := Seqs.Count(names, (n: string) => env.delete(n).DeleteRefused?);
            && r.1
            && (r.0.DeletePartial? <==> refused > 0)
            && (r.0.DeletePartial? ==> r.0.failed == refused)
  {
    ApiCgi.DeleteReturnsEveryResult(names, env);
    var results := RepoManager.DeleteRepositories(names, env.delete).0;
    RepoManager.DeleteCountsRefusals(names, env.delete);
    DeleteOutcomeCountsFailures(results, ApiCgi.DeletedMessage(|names|));
  }
}
