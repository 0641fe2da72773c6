/** `RepositoryDatabase`: three object stores (repositories keyed by name,
    insights keyed by repository name, metadata keyed by `key`) modelled as
    finite maps, with the expiry checks on integer-millisecond timestamps. */
module Cache {
  import opened Wrappers
  import opened Repos
  import Text

  datatype InsightRecord = InsightRecord(repoName: string, insight: string, generatedAt: int)

  /** What `getInsight` hands back. */
  datatype CachedInsight = CachedInsight(insight: string, generatedAt: int)

  datatype Db = Db(
    repositories: map<string, Repository>,
    insights: map<string, InsightRecord>,
    metadata: map<string, int>)

  const LastRepoUpdateKey: string := "lastRepoUpdate"
  const InsightMaxAgeDays: int := 7
  const DataMaxAgeDays: int := 1

  const Empty: Db := Db(map[], map[], map[])

  /** Puts the records one after another, later ones replacing earlier ones
      with the same name. */
  function PutAll(store: map<string, Repository>, list: seq<Repository>): map<string, Repository>
    decreases |list|
  {
    if |list| == 0 then store
    else PutAll(store[list[0].name := list[0]], list[1..])
  }

  /** The last record in `list` named `name`, if any. */
  function LastNamed(list: seq<Repository>, name: string): Option<Repository>
    decreases |list|
  {
    if |list| == 0 then None
    else if list[|list| - 1].name == name then Some(list[|list| - 1])
    else LastNamed(list[..|list| - 1], name)
  }

  lemma {:induction false} PutAllLastWins(store: map<string, Repository>, list: seq<Repository>)
    ensures forall n :: LastNamed(list, n).Some? ==> n in PutAll(store, list) && PutAll(store, list)[n] == LastNamed(list, n).value
    ensures forall n :: LastNamed(list, n).None? ==> (n in PutAll(store, list) <==> n in store) && (n in store ==> PutAll(store, list)[n] == store[n])
    decreases |list|
  {
    if |list| > 0 {
      var s1 := store[list[0].name := list[0]];
      PutAllLastWins(s1, list[1..]);
      forall n ensures LastNamed(list, n) == (if LastNamed(list[1..], n).Some? then LastNamed(list[1..], n) else if list[0].name == n then Some(list[0]) else None) {
        LastNamedCons(list, n);
      }
    }
  }

  lemma {:induction false} LastNamedCons(list: seq<Repository>, n: string)
    requires |list| > 0
    ensures LastNamed(list, n) == (if LastNamed(list[1..], n).Some? then LastNamed(list[1..], n) else if list[0].name == n then Some(list[0]) else None)
    decreases |list|
  {
    if |list| > 1 && list[|list| - 1].name != n {
      LastNamedCons(list[..|list| - 1], n);
      assert list[..|list| - 1][1..] == list[1..][..|list[1..]| - 1];
    }
  }

  /** The stores' key paths: a repository is stored under its `name`, an
      insight under its `repoName`. */
  predicate Keyed(db: Db) {
    && (forall k :: k in db.repositories ==> db.repositories[k].name == k)
    && (forall k :: k in db.insights ==> db.insights[k].repoName == k)
  }

  /** `storeRepositories(list)`: upsert every record by name and set
      `lastRepoUpdate` to `now`; insights are not touched. */
  function StoreRepositories(db: Db, list: seq<Repository>, now: int): (r: Db)
    ensures r.insights == db.insights
    ensures LastRepoUpdate(r) == Some(now)
    ensures forall k :: k != LastRepoUpdateKey ==> (k in r.metadata <==> k in db.metadata)
    ensures forall k :: k != LastRepoUpdateKey && k in db.metadata ==> r.metadata[k] == db.metadata[k]
  {
    Db(PutAll(db.repositories, list), db.insights, db.metadata[LastRepoUpdateKey := now])
  }

  /** `storeRepositories(list)` when a `put` or its transaction fails: the
      failed request aborts the repositories transaction, so no record is
      written, while the separate metadata transaction has already recorded
      the store time. */
  function StoreRejected(db: Db, now: int): (r: Db)
    ensures r.repositories == db.repositories && r.insights == db.insights
    ensures LastRepoUpdate(r) == Some(now)
    ensures forall k :: k != LastRepoUpdateKey ==> (k in r.metadata <==> k in db.metadata)
    ensures forall k :: k != LastRepoUpdateKey && k in db.metadata ==> r.metadata[k] == db.metadata[k]
  {
    db.(metadata := db.metadata[LastRepoUpdateKey := now])
  }

  /** The promise of `storeRepositories` settles only once some record has
      been written, so it never settles for an empty list. */
  predicate StoreSettles(list: seq<Repository>) {
    |list| > 0
  }

  /** `getRepository(name)`. */
  function GetRepository(db: Db, name: string): Option<Repository> {
    if name in db.repositories then Some(db.repositories[name]) else None
  }

  /** The records stored under `keys`, in that order. */
  function ValuesAt(m: map<string, Repository>, keys: seq<string>): (r: seq<Repository>)
    requires forall i :: 0 <= i < |keys| ==> keys[i] in m
    ensures |r| == |keys|
    ensures forall i :: 0 <= i < |keys| ==> r[i] == m[keys[i]]
  {
    seq(|keys|, i requires 0 <= i < |keys| => m[keys[i]])
  }

  lemma ValuesAtCovers(m: map<string, Repository>, keys: seq<string>)
    requires forall k :: k in keys <==> k in m
    ensures forall x :: x in ValuesAt(m, keys) <==> x in m.Values
  {
    var r := ValuesAt(m, keys);
    forall x | x in m.Values ensures x in r {
      var k :| k in m && m[k] == x;
      var i :| 0 <= i < |keys| && keys[i] == k;
      assert r[i] == x;
    }
  }

  /** `getRepositories()`: every stored record, in ascending key order. */
  function GetRepositories(db: Db): (r: seq<Repository>)
    ensures |r| == |db.repositories|
    ensures forall x :: x in r <==> x in db.repositories.Values
    ensures Keyed(db) ==> forall i, j :: 0 <= i < j < |r| ==> Text.Less(r[i].name, r[j].name)
  {
    var keys := Text.SortedElements(db.repositories.Keys);
    var r := ValuesAt(db.repositories, keys);
    ValuesAtCovers(db.repositories, keys);
    assert Keyed(db) ==> forall i :: 0 <= i < |r| ==> r[i].name == keys[i];
    r
  }

  /** `storeInsight(name, text)`. */
  function StoreInsight(db: Db, name: string, text: string, now: int): (r: Db)
    ensures r.repositories == db.repositories && r.metadata == db.metadata
    ensures forall n :: n != name ==> (n in r.insights <==> n in db.insights) && (n in db.insights ==> r.insights[n] == db.insights[n])
  {
    db.(insights := db.insights[name := InsightRecord(name, text, now)])
  }

  /** `getInsight(name)`. */
  function GetInsight(db: Db, name: string): Option<CachedInsight> {
    if name in db.insights then Some(CachedInsight(db.insights[name].insight, db.insights[name].generatedAt)) else None
  }

  /** `getLastRepoUpdateTime()`. */
  function LastRepoUpdate(db: Db): Option<int> {
    if LastRepoUpdateKey in db.metadata then Some(db.metadata[LastRepoUpdateKey]) else None
  }

  function Abs(x: int): nat { if x < 0 then -x else x }

  /** `Math.ceil(ms / day)` for a non-negative millisecond count. */
  function CeilDays(ms: nat): nat {
    (ms + MsPerDay - 1) / MsPerDay
  }

  /** More than `days` whole-or-part days apart, in either direction. */
  predicate OlderThanDays(now: int, stamp: int, days: int) {
    CeilDays(Abs(now - stamp)) > days
  }

  /** `isInsightExpired(generatedAt)`: the stamp lies more than seven full
      days away, in either direction. */
  function IsInsightExpired(now: int, generatedAt: int): (expired: bool)
    ensures expired <==> Abs(now - generatedAt) > InsightMaxAgeDays * MsPerDay
  {
    CeilDaysAbove(Abs(now - generatedAt), InsightMaxAgeDays);
    OlderThanDays(now, generatedAt, InsightMaxAgeDays)
  }

  /** `isLastUpdateOlderThan(days)`: true when nothing was stored yet, and
      otherwise when the last store lies more than `days` full days away. */
  function IsLastUpdateOlderThan(db: Db, now: int, days: int): (older: bool)
    ensures older <==> LastRepoUpdate(db).None? || Abs(now - LastRepoUpdate(db).value) > days * MsPerDay
  {
    match LastRepoUpdate(db)
    case None => true
    case Some(t) =>
      CeilDaysAbove(Abs(now - t), days);
      OlderThanDays(now, t, days)
  }

  /** `isDataExpired()`, read as the boolean it is meant to be: no store
      recorded, or the last one more than a full day away. */
  function IsDataExpired(db: Db, now: int): (expired: bool)
    ensures expired <==> LastRepoUpdate(db).None? || Abs(now - LastRepoUpdate(db).value) > MsPerDay
  {
    IsLastUpdateOlderThan(db, now, DataMaxAgeDays)
  }

  /** `clearAll()`. */
  function ClearAll(db: Db): (r: Db)
    ensures r.repositories == map[] && r.insights == map[] && r.metadata == map[]
  {
    Empty
  }

  /** After a store, a name the list mentions reads back as the list's last
      record with that name; every other name reads back as before. */
  lemma StoreRepositoriesLastWins(db: Db, list: seq<Repository>, now: int, name: string)
    ensures GetRepository(StoreRepositories(db, list, now), name)
         == (if LastNamed(list, name).Some? then LastNamed(list, name) else GetRepository(db, name))
  {
    PutAllLastWins(db.repositories, list);
  }

  /** Writing the same list a second time, at a later or any other time,
      changes no repository and no insight: only `lastRepoUpdate` moves to
      the second call's time. */
  lemma StoreRepositoriesIdempotent(db: Db, list: seq<Repository>, t1: int, t2: int)
    ensures var once := StoreRepositories(db, list, t1);
            var twice := StoreRepositories(once, list, t2);
            && twice.repositories == once.repositories
            && twice.insights == once.insights
            && twice.metadata == once.metadata[LastRepoUpdateKey := t2]
  {
    var once := StoreRepositories(db, list, t1);
    var twice := StoreRepositories(once, list, t2);
    forall n ensures GetRepository(twice, n) == GetRepository(once, n) {
      StoreRepositoriesLastWins(once, list, t2, n);
      StoreRepositoriesLastWins(db, list, t1, n);
    }
    forall n | n in twice.repositories || n in once.repositories
      ensures n in twice.repositories && n in once.repositories && twice.repositories[n] == once.repositories[n]
    {
      assert GetRepository(twice, n) == GetRepository(once, n);
    }
    assert twice.repositories == once.repositories;
  }

  /** Storing records keeps every record under its own name. */
  lemma StoreRepositoriesKeepsKeyed(db: Db, list: seq<Repository>, now: int)
    requires Keyed(db)
    ensures Keyed(StoreRepositories(db, list, now))
  {
    var r := StoreRepositories(db, list, now);
    forall n | n in r.repositories ensures r.repositories[n].name == n {
      StoreRepositoriesLastWins(db, list, now, n);
      if LastNamed(list, n).Some? {
        LastNamedHasName(list, n);
      }
    }
  }

  lemma {:induction false} LastNamedHasName(list: seq<Repository>, name: string)
    ensures LastNamed(list, name).Some? ==> LastNamed(list, name).value.name == name && LastNamed(list, name).value in list
    decreases |list|
  {
    if |list| > 0 && list[|list| - 1].name != name {
      LastNamedHasName(list[..|list| - 1], name);
    }
  }

  /** Every record of the list is findable by name after the store. */
  lemma StoredRecordsAreFound(db: Db, list: seq<Repository>, now: int)
    ensures forall x :: x in list ==> GetRepository(StoreRepositories(db, list, now), x.name).Some?
  {
    forall x | x in list ensures GetRepository(StoreRepositories(db, list, now), x.name).Some? {
      LastNamedFindsMember(list, x);
      StoreRepositoriesLastWins(db, list, now, x.name);
    }
  }

  lemma {:induction false} LastNamedFindsMember(list: seq<Repository>, x: Repository)
    requires x in list
    ensures LastNamed(list, x.name).Some?
    decreases |list|
  {
    if list[|list| - 1].name != x.name {
      assert x != list[|list| - 1];
      var i :| 0 <= i < |list| && list[i] == x;
      assert list[..|list| - 1][i] == x;
      LastNamedFindsMember(list[..|list| - 1], x);
    }
  }

  /** `getInsight` returns what `storeInsight` wrote, stamped with the write
      time, and every other repository's insight is untouched. */
  lemma InsightRoundTrip(db: Db, name: string, text: string, now: int)
    ensures GetInsight(StoreInsight(db, name, text, now), name) == Some(CachedInsight(text, now))
    ensures forall n :: n != name ==> GetInsight(StoreInsight(db, name, text, now), n) == GetInsight(db, n)
  {
  }

  /** Storing one insight keeps every store keyed by its key path. */
  lemma StoreInsightKeepsKeyed(db: Db, name: string, text: string, now: int)
    requires Keyed(db)
    ensures Keyed(StoreInsight(db, name, text, now))
  {
  }

  lemma MulMonotone(a: int, b: int, c: nat)
    requires a <= b
    ensures a * c <= b * c
  {
  }

  /** Rounding a duration up to whole days exceeds `days` exactly when the
      duration is longer than `days` full days. */
  lemma {:induction false} CeilDaysAbove(ms: nat, days: int)
    ensures CeilDays(ms) > days <==> ms > days * MsPerDay
  {
    var q := CeilDays(ms);
    var rem := (ms + MsPerDay - 1) % MsPerDay;
    assert ms + MsPerDay - 1 == q * MsPerDay + rem;
    if q > days {
      MulMonotone(days + 1, q, MsPerDay);
    } else {
      MulMonotone(q, days, MsPerDay);
    }
  }

  /** Right after a store the data is fresh for a whole day and stale after. */
  lemma FreshAfterStore(db: Db, list: seq<Repository>, now: int, later: int)
    requires now <= later
    ensures IsDataExpired(StoreRepositories(db, list, now), later) <==> later - now > MsPerDay
  {
  }

  /** After `clearAll` nothing is cached and the data counts as expired. */
  lemma ClearAllForgets(db: Db, now: int, name: string)
    ensures GetRepositories(ClearAll(db)) == []
    ensures GetRepository(ClearAll(db), name).None? && GetInsight(ClearAll(db), name).None?
    ensures IsDataExpired(ClearAll(db), now)
    ensures Keyed(ClearAll(db))
  {
  }
}
