/** The repository record every part of the dashboard passes around, with
    the constants and derived-field rules shared by the TypeScript and the
    Python normalisers. Timestamps are integer milliseconds since the epoch
    and sizes are integer kilobytes. */
module Repos {
  import opened Wrappers

  datatype Visibility = Private | Public

  /** The `'PRIVATE' | 'PUBLIC'` label the filters compare against. */
  function VisibilityLabel(v: Visibility): string {
    match v
    case Private => "PRIVATE"
    case Public => "PUBLIC"
  }

  datatype Repository = Repository(
    name: string,
    url: string,
    description: Option<string>,
    isArchived: bool,
    diskUsage: nat,
    visibility: Visibility,
    createdAt: int,
    updatedAt: int,
    pushedAt: int,
    daysSinceLastPush: int,
    inactive: bool,
    primaryLanguage: string)

  const MsPerDay: int := 1000 * 60 * 60 * 24

  /** A repository with no push for more than this many days is inactive. */
  const InactiveAfterDays: int := 180

  /** Sentinel primary language of a repository without language data. */
  const NoLanguage: string := "None"

  /** Whole days elapsed from `since` to `now`, rounded down (`Math.floor` of
      the millisecond difference, and Python's `timedelta.days`). */
  function DaysSince(now: int, since: int): (d: int)
    ensures d * MsPerDay <= now - since < (d + 1) * MsPerDay
  {
    (now - since) / MsPerDay
  }

  /** The derived fields agree with the provider-native ones at time `now`. */
  predicate ActivityDerived(r: Repository, now: int) {
    && r.daysSinceLastPush == DaysSince(now, r.pushedAt)
    && r.inactive == (r.daysSinceLastPush > InactiveAfterDays)
  }

  /** A language that the summaries and language lists count: present and
      not the sentinel (`lang && lang !== 'None'`). */
  predicate IsRealLanguage(lang: string) {
    lang != "" && lang != NoLanguage
  }

  predicate IsPrivate(r: Repository) { r.visibility == Private }
  predicate IsPublic(r: Repository) { r.visibility == Public }
  predicate IsArchived(r: Repository) { r.isArchived }
  predicate IsInactive(r: Repository) { r.inactive }
  predicate HasRealLanguage(r: Repository) { IsRealLanguage(r.primaryLanguage) }
  function SizeKB(r: Repository): int { r.diskUsage }

  /** A repository pushed more than 180 days ago (in whole days) is inactive,
      and one pushed within 181 days is not. */
  lemma InactiveThreshold(now: int, pushedAt: int)
    ensures DaysSince(now, pushedAt) > InactiveAfterDays <==> now - pushedAt >= (InactiveAfterDays + 1) * MsPerDay
  {
    var d := DaysSince(now, pushedAt);
    if d > InactiveAfterDays {
      assert (InactiveAfterDays + 1) * MsPerDay <= d * MsPerDay;
    } else {
      assert (d + 1) * MsPerDay <= (InactiveAfterDays + 1) * MsPerDay;
    }
  }
}
