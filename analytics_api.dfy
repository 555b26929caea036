/** Platform analytics: active-user counts per period, cached in the `analytics` collection with
    an expiry per period, and the total numbers of requests, comments and labels. */
module AnalyticsApi {

  import opened Wrappers
  import opened Documents
  import opened Ordering
  import opened Store
  import opened Types

  const HourMillis: nat := 60 * 60 * 1000
  const DayMillis: nat := 24 * HourMillis

  /** How long a cached value stays fresh: one hour for the daily count, six hours for the weekly
      count and a day for the monthly count. */
  function CacheDuration(p: Period): nat {
    match p
    case Daily => HourMillis
    case Weekly => 6 * HourMillis
    case Monthly => 24 * HourMillis
  }

  /** How far back a login counts as active: one, seven or thirty days. */
  function LookbackDays(p: Period): nat {
    match p
    case Daily => 1
    case Weekly => 7
    case Monthly => 30
  }

  const ActiveUsersKind: string := "active_users"

  /** The id of a cache document: the kind and the period name joined by `_`. */
  function CacheId(kind: string, p: Period): string {
    kind + "_" + PeriodName(p)
  }

  /** Different periods of one kind are cached in different documents. */
  lemma CacheIdsDistinct(kind: string, p: Period, q: Period)
    requires p != q
    ensures CacheId(kind, p) != CacheId(kind, q)
  {
    var a, b := CacheId(kind, p), CacheId(kind, q);
    assert a[|kind| + 1..] == PeriodName(p);
    assert b[|kind| + 1..] == PeriodName(q);
  }

  /** `convertFirestoreAnalyticsDoc`: a missing value reads as 0 and the times follow the
      timestamp reading rules. */
  function Convert(d: Doc, id: string, now: int): AnalyticsCache {
    AnalyticsCache(
      id,
      TextOr(d, CacheType, ""),
      TextOr(d, CachePeriod, ""),
      NumberOr(d, CacheValue),
      TimeOr(d, LastUpdated, now),
      TimeOr(d, ExpiresAt, now))
  }

  /** `isCacheExpired`: the current time is past the expiry time. */
  predicate IsCacheExpired(c: AnalyticsCache, now: int) {
    now > c.expiresAt
  }

  /** `getCachedAnalytics`: the cache entry for the kind and period, if there is one. */
  function GetCachedAnalytics(a: Collection, kind: string, p: Period, now: int): (r: Option<AnalyticsCache>)
    ensures r.Some? <==> CacheId(kind, p) in a.docs
    ensures r.Some? ==> r.value.id == CacheId(kind, p)
  {
    var id := CacheId(kind, p);
    if id in a.docs then Some(Convert(a.docs[id], id, now)) else None
  }

  /** The document `updateAnalyticsCache` writes at time `now`. */
  function CachePayload(kind: string, p: Period, value: int, now: int): Payload {
    map[
      CacheType := Put(Str(kind)),
      CachePeriod := Put(Str(PeriodName(p))),
      CacheValue := Put(Num(value)),
      LastUpdated := ServerTimestamp,
      ExpiresAt := Put(Time(now + CacheDuration(p)))]
  }

  /** The analytics collection after `updateAnalyticsCache`. */
  function CacheWritten(a: Collection, kind: string, p: Period, value: int, now: int): (r: Collection)
    requires a.Valid()
    ensures r.Valid()
  {
    SetDoc(a, CacheId(kind, p), CachePayload(kind, p, value, now), now)
  }

  /** A written entry reads back with its value, updated now and expiring one cache duration
      later; it is fresh exactly until then. */
  lemma CacheReadsBack(a: Collection, kind: string, p: Period, value: int, now: int, later: int)
    requires a.Valid()
    ensures GetCachedAnalytics(CacheWritten(a, kind, p, value, now), kind, p, later)
         == Some(AnalyticsCache(CacheId(kind, p), kind, PeriodName(p), value, now, now + CacheDuration(p)))
    ensures IsCacheExpired(GetCachedAnalytics(CacheWritten(a, kind, p, value, now), kind, p, later).value, later)
        <==> later > now + CacheDuration(p)
  {
  }

  /** Writing one entry leaves the entries of the other periods as they were. */
  lemma CacheWriteKeepsOtherPeriods(a: Collection, kind: string, p: Period, q: Period, value: int, now: int, later: int)
    requires a.Valid() && p != q
    ensures GetCachedAnalytics(CacheWritten(a, kind, p, value, now), kind, q, later) == GetCachedAnalytics(a, kind, q, later)
  {
    CacheIdsDistinct(kind, p, q);
  }

  /** Entries of the three periods written at one time expire shortest period first: while the
      daily entry is fresh so is the weekly one, and while the weekly one is fresh so is the
      monthly one; the daily entry expires after exactly one hour, the weekly one after six. */
  lemma LongerPeriodsStayFresh(a: Collection, kind: string, vd: int, vw: int, vm: int, now: int, later: int)
    requires a.Valid()
    ensures var d := GetCachedAnalytics(CacheWritten(a, kind, Daily, vd, now), kind, Daily, later).value;
            var w := GetCachedAnalytics(CacheWritten(a, kind, Weekly, vw, now), kind, Weekly, later).value;
            var m := GetCachedAnalytics(CacheWritten(a, kind, Monthly, vm, now), kind, Monthly, later).value;
            (!IsCacheExpired(d, later) ==> !IsCacheExpired(w, later))
            && (!IsCacheExpired(w, later) ==> !IsCacheExpired(m, later))
            && (IsCacheExpired(d, later) <==> later > now + 3600000)
            && (IsCacheExpired(w, later) <==> later > now + 21600000)
  {
    CacheReadsBack(a, kind, Daily, vd, now, later);
    CacheReadsBack(a, kind, Weekly, vw, now, later);
    CacheReadsBack(a, kind, Monthly, vm, now, later);
  }

  /** The start of the period: `days` days before `now`. */
  function PeriodStart(p: Period, now: int): int {
    now - LookbackDays(p) * DayMillis
  }

  /** The query of `calculateActiveUsers`: users who logged in at or after the start of the
      period, latest first. */
  function ActiveUsersQuery(p: Period, now: int): Query {
    Query([AtLeast(LastLoginAt, TimeKey(PeriodStart(p, now)))], Some(OrderBy(LastLoginAt, Desc)), None, None)
  }

  /** `calculateActiveUsers`: the size of the query's result. */
  function CalculateActiveUsers(users: Collection, p: Period, now: int): nat
    requires users.Valid()
  {
    |Run(users, ActiveUsersQuery(p, now))|
  }

  /** The user's last login is a stored time at or after `start`. */
  predicate LoggedInSince(d: Doc, start: int) {
    LastLoginAt in d && d[LastLoginAt].Time? && d[LastLoginAt].millis >= start
  }

  /** The query's condition on a user document is exactly `LoggedInSince`. */
  lemma LoginCondition(d: Doc, start: int)
    ensures Holds(AtLeast(LastLoginAt, TimeKey(start)), d) <==> LoggedInSince(d, start)
  {
  }

  /** A user is counted if and only if their last login is a stored time at or after the start of
      the period. */
  lemma ActiveUserCounted(users: Collection, p: Period, now: int, id: string)
    requires users.Valid()
    ensures forall x :: x in Run(users, ActiveUsersQuery(p, now)) ==> x.id in users.docs && LoggedInSince(x.data, PeriodStart(p, now))
    ensures id in users.docs && LoggedInSince(users.docs[id], PeriodStart(p, now))
        ==> Row(id, users.docs[id]) in Run(users, ActiveUsersQuery(p, now))
  {
    var q := ActiveUsersQuery(p, now);
    var start := PeriodStart(p, now);
    forall x | x in Run(users, q) ensures LoggedInSince(x.data, start) {
      assert HoldsAll(q.wheres, x.data);
      assert Holds(q.wheres[0], x.data);
      LoginCondition(x.data, start);
    }
    if id in users.docs && LoggedInSince(users.docs[id], start) {
      var r := Row(id, users.docs[id]);
      LoginCondition(r.data, start);
      assert HoldsAll(q.wheres, r.data);
      assert Selects(q, r);
      RunComplete(users, q, id);
    }
  }

  /** Counted at the same time, a longer period never has fewer active users. */
  lemma ActiveUsersMonotone(users: Collection, p: Period, q: Period, now: int)
    requires users.Valid()
    requires LookbackDays(p) <= LookbackDays(q)
    ensures CalculateActiveUsers(users, p, now) <= CalculateActiveUsers(users, q, now)
  {
    var o := Some(OrderBy(LastLoginAt, Desc));
    var ws1 := ActiveUsersQuery(p, now).wheres;
    var ws2 := ActiveUsersQuery(q, now).wheres;
    forall x | Chosen(ws1, o, x) ensures Chosen(ws2, o, x) {
      assert Holds(ws1[0], x.data);
      LoginCondition(x.data, PeriodStart(p, now));
      LoginCondition(x.data, PeriodStart(q, now));
    }
    SelectedMonotone(ws1, ws2, o, Rows(users));
  }

  /** The failures `getActiveUsers` can meet: reading the cache, counting, and writing the cache. */
  datatype Faults = Faults(readFails: bool, countFails: bool, writeFails: bool)

  const NoFaults: Faults := Faults(false, false, false)

  /** What `getActiveUsers` returns and the analytics collection it leaves. A fresh cached value
      is returned as is; otherwise the users are counted and the count cached. When counting or
      writing fails the value cached before (even if expired) is returned, or 0 without one; a
      failed cache read returns 0. */
  function ActiveUsers(a: Collection, users: Collection, p: Period, now: int, f: Faults): (r: (int, Collection))
    requires a.Valid() && users.Valid()
    ensures r.1.Valid()
  {
    if f.readFails then (0, a)
    else
      var cached := GetCachedAnalytics(a, ActiveUsersKind, p, now);
      var fallback := if cached.Some? then cached.value.value else 0;
      if cached.Some? && !IsCacheExpired(cached.value, now) then (cached.value.value, a)
      else if f.countFails || f.writeFails then (fallback, a)
      else
        var count := CalculateActiveUsers(users, p, now);
        (count, CacheWritten(a, ActiveUsersKind, p, count, now))
  }

  /** A cached value that has not expired is returned as is, whatever the users and whatever
      counting or writing would do, and the cache is left alone. */
  lemma ActiveUsersServesFreshCache(a: Collection, users: Collection, p: Period, now: int, f: Faults)
    requires a.Valid() && users.Valid() && !f.readFails
    requires var c := GetCachedAnalytics(a, ActiveUsersKind, p, now); c.Some? && !IsCacheExpired(c.value, now)
    ensures ActiveUsers(a, users, p, now, f) == (GetCachedAnalytics(a, ActiveUsersKind, p, now).value.value, a)
  {
  }

  /** When counting or writing fails, the value cached before is returned even if it has expired,
      or 0 without one, and the cache is left alone. */
  lemma ActiveUsersStaleIfError(a: Collection, users: Collection, p: Period, now: int, f: Faults)
    requires a.Valid() && users.Valid() && !f.readFails && (f.countFails || f.writeFails)
    ensures var c := GetCachedAnalytics(a, ActiveUsersKind, p, now);
      ActiveUsers(a, users, p, now, f) == (if c.Some? then c.value.value else 0, a)
  {
  }

  /** `getActiveUsers`. */
  method GetActiveUsers(db: Db, p: Period, now: int, f: Faults) returns (n: int)
    requires db.Valid()
    modifies db`analytics
    ensures db.Valid()
    ensures (n, db.analytics) == ActiveUsers(old(db.analytics), db.users, p, now, f)
  {
    if f.readFails {
      return 0;
    }
    var cached := GetCachedAnalytics(db.analytics, ActiveUsersKind, p, now);
    if cached.Some? && !IsCacheExpired(cached.value, now) {
      return cached.value.value;
    }
    if !f.countFails {
      var count := CalculateActiveUsers(db.users, p, now);
      if !f.writeFails {
        db.analytics := CacheWritten(db.analytics, ActiveUsersKind, p, count, now);
        return count;
      }
    }
    n := if cached.Some? then cached.value.value else 0;
  }

  /** Without a fresh cached value and without failures, the count is computed from the users and
      cached until one cache duration from now. */
  lemma ActiveUsersComputesWhenStale(a: Collection, users: Collection, p: Period, now: int)
    requires a.Valid() && users.Valid()
    requires var c := GetCachedAnalytics(a, ActiveUsersKind, p, now); c.None? || IsCacheExpired(c.value, now)
    ensures var (n, a') := ActiveUsers(a, users, p, now, NoFaults);
      n == CalculateActiveUsers(users, p, now)
      && GetCachedAnalytics(a', ActiveUsersKind, p, now) == Some(AnalyticsCache(
           CacheId(ActiveUsersKind, p), ActiveUsersKind, PeriodName(p), n, now, now + CacheDuration(p)))
  {
    CacheReadsBack(a, ActiveUsersKind, p, CalculateActiveUsers(users, p, now), now, now);
  }

  /** A value computed at `now` is returned by every later call up to one cache duration after
      it whose cache read succeeds, whatever the users do meanwhile and whatever else fails. */
  lemma ActiveUsersCachedWithinDuration(a: Collection, users: Collection, users': Collection, p: Period, now: int, later: int, f: Faults)
    requires a.Valid() && users.Valid() && users'.Valid()
    requires var c := GetCachedAnalytics(a, ActiveUsersKind, p, now); c.None? || IsCacheExpired(c.value, now)
    requires now <= later <= now + CacheDuration(p) && !f.readFails
    ensures var (n, a') := ActiveUsers(a, users, p, now, NoFaults);
      ActiveUsers(a', users', p, later, f) == (n, a')
  {
    var count := CalculateActiveUsers(users, p, now);
    CacheReadsBack(a, ActiveUsersKind, p, count, now, later);
  }

  /** When writing the cache fails the freshly computed count is discarded: the call returns the
      expired cached value, or 0 without one, and the cache is left as it was. */
  lemma ActiveUsersWriteFailureDiscardsCount(a: Collection, users: Collection, p: Period, now: int)
    requires a.Valid() && users.Valid()
    requires var c := GetCachedAnalytics(a, ActiveUsersKind, p, now); c.None? || IsCacheExpired(c.value, now)
    ensures var c := GetCachedAnalytics(a, ActiveUsersKind, p, now);
      ActiveUsers(a, users, p, now, Faults(false, false, true)) == (if c.Some? then c.value.value else 0, a)
  {
  }

  /** A failed cache read gives 0, even when a fresh value is cached. */
  lemma ActiveUsersReadFailureGivesZero(a: Collection, users: Collection, p: Period, now: int, f: Faults)
    requires a.Valid() && users.Valid() && f.readFails
    ensures ActiveUsers(a, users, p, now, f) == (0, a)
  {
  }

  /** `getActiveUsersAnalytics`: the three counts, daily, weekly and monthly, stamped now. */
  method GetActiveUsersAnalytics(db: Db, now: int, daily: Faults, weekly: Faults, monthly: Faults)
    returns (r: ActiveUsersAnalytics)
    requires db.Valid()
    modifies db`analytics
    ensures db.Valid()
    ensures var (d, a1) := ActiveUsers(old(db.analytics), db.users, Daily, now, daily);
      var (w, a2) := ActiveUsers(a1, db.users, Weekly, now, weekly);
      var (m, a3) := ActiveUsers(a2, db.users, Monthly, now, monthly);
      r == ActiveUsersAnalytics(d, w, m, now) && db.analytics == a3
  {
    var d := GetActiveUsers(db, Daily, now, daily);
    var w := GetActiveUsers(db, Weekly, now, weekly);
    var m := GetActiveUsers(db, Monthly, now, monthly);
    r := ActiveUsersAnalytics(d, w, m, now);
  }

  /** When none of the three counts is cached fresh and nothing fails, the daily count is at most
      the weekly count, which is at most the monthly count. */
  lemma FreshAnalyticsOrdered(a: Collection, users: Collection, now: int)
    requires a.Valid() && users.Valid()
    requires forall p: Period :: var c := GetCachedAnalytics(a, ActiveUsersKind, p, now); c.None? || IsCacheExpired(c.value, now)
    ensures var (d, a1) := ActiveUsers(a, users, Daily, now, NoFaults);
      var (w, a2) := ActiveUsers(a1, users, Weekly, now, NoFaults);
      var (m, a3) := ActiveUsers(a2, users, Monthly, now, NoFaults);
      d <= w <= m
  {
    var (d, a1) := ActiveUsers(a, users, Daily, now, NoFaults);
    CacheWriteKeepsOtherPeriods(a, ActiveUsersKind, Daily, Weekly, d, now, now);
    var (w, a2) := ActiveUsers(a1, users, Weekly, now, NoFaults);
    CacheWriteKeepsOtherPeriods(a, ActiveUsersKind, Daily, Monthly, d, now, now);
    CacheWriteKeepsOtherPeriods(a1, ActiveUsersKind, Weekly, Monthly, w, now, now);
    ActiveUsersMonotone(users, Daily, Weekly, now);
    ActiveUsersMonotone(users, Weekly, Monthly, now);
  }

  /** `getTotalFeatureRequests`, `getTotalComments`, `getTotalLabels`: the number of documents in
      the collection, or 0 when the read fails. */
  function Total(c: Collection, fails: bool): (n: nat)
    requires c.Valid()
    ensures n == if fails then 0 else |c.docs|
  {
    CountAll(c);
    if fails then 0 else Count(c, [])
  }
}
