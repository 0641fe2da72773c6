/** The repository insight panel: what it does on mount, the foreground and
    background `generateInsight` runs as state transitions, and what it
    draws. The model call is an oracle; each run is one atomic step. */
module InsightPanel {
  import opened Wrappers
  import Cache
  import Loader

  /** The panel's React state plus the insight cache it writes. */
  datatype PanelState = PanelState(
    insight: Option<string>,
    isLoading: bool,
    error: Option<string>,
    lastGenerated: Option<int>,
    db: Cache.Db)

  /** The chat completion and the store of its text: the content, or any
      failure (a non-2xx status, a network error, an unexpected body or a
      rejected `storeInsight`, which the same `catch` handles). */
  datatype ModelReply = Generated(text: string) | GenerationFailed

  /** What the mount schedules. */
  datatype MountPlan = NoGeneration | ForegroundRun | BackgroundRun

  datatype View = Skeleton | ShowInsight(text: string) | Placeholder

  const NoKeyMessage: string := "OpenAI API key not found. Please set your API key in settings."
  const GenerationFailedMessage: string := "Failed to generate insights. Please check your OpenAI API key and try again."
  const CacheFailedMessage: string := "Failed to load insights from cache"

  function Initial(db: Cache.Db): PanelState {
    PanelState(None, false, None, None, db)
  }

  /** An insight counts as displayed only when it is a non-empty string. */
  predicate Shown(insight: Option<string>) {
    insight.Some? && insight.value != ""
  }

  /** One `generateInsight(background)` run for repository `name`. `seen` is
      the `insight` value the running closure captured, which the
      background branch consults. */
  function Generate(s: PanelState, background: bool, token: Option<string>, reply: ModelReply,
                    seen: Option<string>, name: string, now: int): (r: PanelState)
    ensures !background ==> !r.isLoading
    ensures background ==> r.isLoading == s.isLoading && r.error == s.error
    ensures background && !Loader.HasToken(token) ==> r == s
    ensures !background && !Loader.HasToken(token) ==> r == s.(isLoading := false, error := Some(NoKeyMessage))
    ensures !Loader.HasToken(token) || reply.GenerationFailed? ==> r.db == s.db && r.insight == s.insight
    ensures Loader.HasToken(token) && reply.Generated? ==>
              Cache.GetInsight(r.db, name) == Some(Cache.CachedInsight(reply.text, now))
              && (forall n :: n != name ==> Cache.GetInsight(r.db, n) == Cache.GetInsight(s.db, n))
    ensures r.insight != s.insight ==> Loader.HasToken(token) && reply.Generated? && r.insight == Some(reply.text)
  {
    var s1 := if background then s else s.(isLoading := true, error := None);
    if !Loader.HasToken(token) then
      if background then s else s1.(error := Some(NoKeyMessage), isLoading := false)
    else match reply
      case GenerationFailed =>
        if background then s else s1.(error := Some(GenerationFailedMessage), isLoading := false)
      case Generated(text) =>
        var db := Cache.StoreInsight(s.db, name, text, now);
        if !background then s1.(insight := Some(text), lastGenerated := Some(now), db := db, isLoading := false)
        else if !Shown(seen) then s.(insight := Some(text), lastGenerated := Some(now), db := db)
        else s.(db := db)
  }

  /** A foreground success shows the new text; a background success shows
      it only when the run saw nothing displayed. */
  lemma GenerateSuccessDisplay(s: PanelState, background: bool, token: Option<string>, text: string,
                               seen: Option<string>, name: string, now: int)
    requires Loader.HasToken(token)
    ensures var r := Generate(s, background, token, Generated(text), seen, name, now);
            (r.insight == Some(text) && r.lastGenerated == Some(now)) || (background && Shown(seen) && r.insight == s.insight)
    ensures background && Shown(seen) ==> Generate(s, background, token, Generated(text), seen, name, now).insight == s.insight
    ensures !background || !Shown(seen) ==> Generate(s, background, token, Generated(text), seen, name, now).insight == Some(text)
  {
  }

  /** A failing run changes nothing in the background and reports the
      failure in the foreground. */
  lemma GenerateFailure(s: PanelState, background: bool, token: Option<string>, seen: Option<string>, name: string, now: int)
    requires Loader.HasToken(token)
    ensures background ==> Generate(s, background, token, GenerationFailed, seen, name, now) == s
    ensures !background ==>
              Generate(s, background, token, GenerationFailed, seen, name, now) == s.(isLoading := false, error := Some(GenerationFailedMessage))
  {
  }

  /** `loadInsight`: what the mount shows at once and what it schedules.
      `readOk` is whether the cache opened and answered. */
  function LoadInsight(s: PanelState, readOk: bool, name: string, now: int): (r: (PanelState, MountPlan))
    ensures !readOk ==> r == (s.(error := Some(CacheFailedMessage)), NoGeneration)
    ensures readOk && Cache.GetInsight(s.db, name).Some? ==>
              r.0.insight == Some(Cache.GetInsight(s.db, name).value.insight)
              && (r.1 == BackgroundRun <==> Cache.IsInsightExpired(now, Cache.GetInsight(s.db, name).value.generatedAt))
              && r.1 != ForegroundRun
    ensures readOk && Cache.GetInsight(s.db, name).None? ==> r == (s, ForegroundRun)
  {
    if !readOk then (s.(error := Some(CacheFailedMessage)), NoGeneration)
    else match Cache.GetInsight(s.db, name)
      case Some(c) =>
        var shown := s.(insight := Some(c.insight), lastGenerated := Some(c.generatedAt));
        (shown, if Cache.IsInsightExpired(now, c.generatedAt) then BackgroundRun else NoGeneration)
      case None => (s, ForegroundRun)
  }

  /** Runs what the mount scheduled. The closure created on mount captured
      the first render's `insight`, which is always null, so as written the
      background run sees nothing displayed. */
  function MountAsWritten(db: Cache.Db, readOk: bool, name: string, now: int, token: Option<string>, reply: ModelReply): (r: PanelState)
    ensures var (shown, plan) := LoadInsight(Initial(db), readOk, name, now);
            plan == NoGeneration ==> r == shown
  {
    var (shown, plan) := LoadInsight(Initial(db), readOk, name, now);
    match plan
    case NoGeneration => shown
    case ForegroundRun => Generate(shown, false, token, reply, Initial(db).insight, name, now)
    case BackgroundRun => Generate(shown, true, token, reply, Initial(db).insight, name, now)
  }

  /** The mount as the comment on the background branch intends: the run
      consults the insight on screen. */
  function Mount(db: Cache.Db, readOk: bool, name: string, now: int, token: Option<string>, reply: ModelReply): (r: PanelState)
    ensures var (shown, plan) := LoadInsight(Initial(db), readOk, name, now);
            plan == NoGeneration ==> r == shown
  {
    var (shown, plan) := LoadInsight(Initial(db), readOk, name, now);
    match plan
    case NoGeneration => shown
    case ForegroundRun => Generate(shown, false, token, reply, shown.insight, name, now)
    case BackgroundRun => Generate(shown, true, token, reply, shown.insight, name, now)
  }

  /** As written, an expired cached insight that is on screen is replaced
      by the background result; with the captured value corrected, it
      stays, while the fresh text still goes to the cache. */
  lemma StaleClosureReplacesShownInsight(db: Cache.Db, name: string, now: int, token: Option<string>, text: string)
    requires Loader.HasToken(token)
    requires Cache.GetInsight(db, name).Some?
    requires Shown(Some(Cache.GetInsight(db, name).value.insight))
    requires Cache.IsInsightExpired(now, Cache.GetInsight(db, name).value.generatedAt)
    ensures MountAsWritten(db, true, name, now, token, Generated(text)).insight == Some(text)
    ensures Mount(db, true, name, now, token, Generated(text)).insight == Some(Cache.GetInsight(db, name).value.insight)
    ensures Cache.GetInsight(Mount(db, true, name, now, token, Generated(text)).db, name) == Some(Cache.CachedInsight(text, now))
  {
  }

  /** The mount never leaves the spinner on and starts at most one run: with
      nothing cached a foreground run, with an expired cached insight one
      background run that leaves `error` untouched. */
  lemma MountSettles(db: Cache.Db, readOk: bool, name: string, now: int, token: Option<string>, reply: ModelReply)
    ensures !Mount(db, readOk, name, now, token, reply).isLoading
    ensures readOk && Cache.GetInsight(db, name).Some? ==> Mount(db, readOk, name, now, token, reply).error.None?
  {
  }

  /** The panel body. */
  function Render(s: PanelState): (v: View)
    ensures v == Skeleton <==> s.isLoading && !Shown(s.insight)
    ensures v.ShowInsight? <==> Shown(s.insight)
    ensures v.ShowInsight? ==> s.insight == Some(v.text)
  {
    if s.isLoading && !Shown(s.insight) then Skeleton
    else if Shown(s.insight) then ShowInsight(s.insight.value)
    else Placeholder
  }

  /** While a foreground run is under way over an empty panel the skeleton
      shows; once it ends, the skeleton is gone. */
  lemma SkeletonOnlyWhileLoading(s: PanelState, token: Option<string>, reply: ModelReply, name: string, now: int)
    requires !Shown(s.insight)
    ensures Render(s.(isLoading := true, error := None)) == Skeleton
    ensures Render(Generate(s, false, token, reply, s.insight, name, now)) != Skeleton
  {
  }
}
