/** The user hooks over the query cache: the hierarchical user keys, which
    queries run (`enabled: !!uid`), the cache merge of `useUpdateUser`, the
    cache effects of `useCreateUser` and `useUpsertUserOnLogin`, and the page
    parameter of a user's own requests (12 per page). */
module UserQueries {

  import opened Wrappers
  import Types
  import Documents
  import opened Store
  import opened QueryCache
  import Api = UserApi
  import RequestApi = FeatureRequestApi
  import Requests = FeatureRequestQueries

  // The keys

  function All(): Key { [Word("users")] }
  function User(uid: string): Key { All() + [Word(uid)] }
  function AdminEmails(): Key { All() + [Word("adminEmails")] }
  function IsAdmin(email: string): Key { All() + [Word("isAdmin"), Word(email)] }
  function Details(): Key { All() + [Word("detail")] }
  function Detail(id: string): Key { Details() + [Word(id)] }
  function FeatureRequests(id: string): Key { All() + [Word("featureRequests"), Word(id)] }
  function VotedFeatureRequests(id: string): Key { All() + [Word("votedFeatureRequests"), Word(id)] }
  function Stats(id: string): Key { All() + [Word("stats"), Word(id)] }

  /** The words the other user keys put where `user(uid)` puts the uid. */
  const KeyWords: set<string> := {"adminEmails", "isAdmin", "detail", "featureRequests", "votedFeatureRequests", "stats"}

  /** For a uid that is not one of the key words, `user(uid)` selects its own entry and no entry
      of another user key. */
  lemma UserKeySelectsOnlyItsUser(uid: string, other: string, email: string, id: string)
    requires uid !in KeyWords && other != uid
    ensures Matches(User(uid), User(uid))
    ensures !Matches(User(other), User(uid))
    ensures !Matches(AdminEmails(), User(uid)) && !Matches(IsAdmin(email), User(uid)) && !Matches(Detail(id), User(uid))
    ensures !Matches(FeatureRequests(id), User(uid)) && !Matches(VotedFeatureRequests(id), User(uid)) && !Matches(Stats(id), User(uid))
  {
    WordMismatch(User(other), User(uid), 1);
    WordMismatch(IsAdmin(email), User(uid), 1);
    WordMismatch(Detail(id), User(uid), 1);
    WordMismatch(FeatureRequests(id), User(uid), 1);
    WordMismatch(VotedFeatureRequests(id), User(uid), 1);
    WordMismatch(Stats(id), User(uid), 1);
    WordMismatch(AdminEmails(), User(uid), 1);
  }

  /** The key of the user whose uid is "isAdmin" is a prefix of every admin lookup, so
      invalidating that user's entry also invalidates every cached admin status. */
  lemma UserKeyShadowsAdminLookups(email: string)
    ensures Matches(IsAdmin(email), User("isAdmin"))
  {
    assert IsAdmin(email) == User("isAdmin") + [Word(email)];
    MatchesExtension(User("isAdmin"), [Word(email)]);
  }

  /** `details()` selects every `detail(id)`, and `all` every user key. */
  lemma PrefixesCoverTheirKeys(uid: string, email: string, id: string)
    ensures Matches(Detail(id), Details())
    ensures Matches(User(uid), All()) && Matches(IsAdmin(email), All()) && Matches(Detail(id), All())
    ensures Matches(FeatureRequests(id), All()) && Matches(Stats(id), All())
  {
    MatchesExtension(Details(), [Word(id)]);
    MatchesExtension(All(), [Word(uid)]);
    MatchesExtension(All(), [Word("isAdmin"), Word(email)]);
    MatchesExtension(All(), [Word("detail"), Word(id)]);
    assert Detail(id) == All() + [Word("detail"), Word(id)];
    MatchesExtension(All(), [Word("featureRequests"), Word(id)]);
    MatchesExtension(All(), [Word("stats"), Word(id)]);
  }

  // Which queries run

  /** `!!s`: the text is present and not empty. */
  predicate Present(s: Option<string>) {
    s.Some? && s.value != ""
  }

  /** A query's key and its `enabled` flag. */
  datatype QuerySpec = QuerySpec(key: Key, enabled: bool)

  /** `useUser(uid)`: keyed by `uid || ""`, and run only for a non-empty uid. */
  function UserQuery(uid: Option<string>): (q: QuerySpec)
    ensures q.enabled <==> Present(uid)
    ensures q.enabled ==> q.key == User(uid.value)
    ensures !q.enabled ==> q.key == User("")
  {
    QuerySpec(User(if Present(uid) then uid.value else ""), Present(uid))
  }

  /** `useIsAdmin(email)`: keyed by `email || ""`, and run only for a non-empty email. */
  function IsAdminQuery(email: Option<string>): (q: QuerySpec)
    ensures q.enabled <==> Present(email)
    ensures q.enabled ==> q.key == IsAdmin(email.value)
    ensures !q.enabled ==> q.key == IsAdmin("")
  {
    QuerySpec(IsAdmin(if Present(email) then email.value else ""), Present(email))
  }

  /** The per-user queries `useUserDetails`, `useUserFeatureRequests`, `useUserVotedFeatureRequests`
      and `useUserStats` run only for a non-empty id. */
  function PerUserQueries(id: string): (qs: seq<QuerySpec>)
    ensures |qs| == 4
    ensures forall i :: 0 <= i < |qs| ==> (qs[i].enabled <==> id != "")
    ensures forall i :: 0 <= i < |qs| ==> Matches(qs[i].key, All())
  {
    PrefixesCoverTheirKeys("", "", id);
    MatchesExtension(All(), [Word("votedFeatureRequests"), Word(id)]);
    [QuerySpec(Detail(id), id != ""), QuerySpec(FeatureRequests(id), id != ""),
     QuerySpec(VotedFeatureRequests(id), id != ""), QuerySpec(Stats(id), id != "")]
  }

  // The `useUpdateUser` cache merge

  /** `{ ...old, ...updates }` on the identity: each given field overrides. */
  function MergedIdentity(i: Types.UserIdentity, updates: Types.UserUpdates): Types.UserIdentity {
    i.(email := if updates.email.Some? then updates.email.value else i.email,
       displayName := if updates.displayName.Some? then updates.displayName.value else i.displayName,
       photoURL := if updates.photoURL.Some? then updates.photoURL.value else i.photoURL)
  }

  /** `{ ...old, ...updates }` on a cached user. */
  function Merged(u: Types.User, updates: Types.UserUpdates): Types.User {
    var i := MergedIdentity(Types.UserIdentity(u.uid, u.email, u.displayName, u.photoURL), updates);
    u.(email := i.email, displayName := i.displayName, photoURL := i.photoURL, isAdmin := updates.isAdmin.GetOr(u.isAdmin))
  }

  /** The merge keeps the key and the times, takes every given field, keeps every other field, and
      merging the same updates twice is merging them once. */
  lemma MergedMeaning(u: Types.User, updates: Types.UserUpdates)
    ensures var r := Merged(u, updates);
      r.uid == u.uid && r.createdAt == u.createdAt && r.updatedAt == u.updatedAt && r.lastLoginAt == u.lastLoginAt
      && (updates.email.Some? ==> r.email == updates.email.value) && (updates.email.None? ==> r.email == u.email)
      && (updates.displayName.Some? ==> r.displayName == updates.displayName.value)
      && (updates.displayName.None? ==> r.displayName == u.displayName)
      && (updates.photoURL.Some? ==> r.photoURL == updates.photoURL.value) && (updates.photoURL.None? ==> r.photoURL == u.photoURL)
      && r.isAdmin == updates.isAdmin.GetOr(u.isAdmin)
    ensures Merged(Merged(u, updates), updates) == Merged(u, updates)
    ensures Merged(u, Types.UserUpdates(None, None, None, None)) == u
  {
  }

  /** For updates without a `null` text, the merged cache entry is what the store holds after the
      update, except that the cache keeps the old update time. */
  lemma MergedAgreesWithStore(uid: string, d: Documents.Doc, updates: Types.UserUpdates, now: int, later: int)
    requires updates.email != Some(None) && updates.displayName != Some(None) && updates.photoURL != Some(None)
    ensures var server := Api.Convert(Documents.Row(uid, Documents.ApplyPayload(d, Api.UpdatePayload(updates), now)), later);
      var cached := Merged(Api.Convert(Documents.Row(uid, d), later), updates);
      server.(updatedAt := cached.updatedAt) == cached && server.updatedAt == now
  {
    Api.UpdateReadsBackIdentity(uid, d, updates, now, later);
    Api.UpdateReadsBackFlagAndTimes(uid, d, updates, now, later);
  }

  /** The cache after `useUpdateUser` succeeds: a cached user (or new-user record) under `user(uid)`
      is merged with the updates; when nothing truthy is cached the updater yields `undefined` and
      nothing is written. */
  function AfterUpdate(entries: map<Key, Entry>, uid: string, updates: Types.UserUpdates): map<Key, Entry> {
    var k := User(uid);
    if k in entries && entries[k].data.UserData? then
      entries[k := Entry(UserData(Merged(entries[k].data.user, updates)), false)]
    else if k in entries && entries[k].data.NewUserData? then
      var d := entries[k].data;
      entries[k := Entry(NewUserData(MergedIdentity(d.identity, updates), updates.isAdmin.GetOr(d.isAdmin)), false)]
    else entries
  }

  /** Only `user(uid)` can change, and an absent or `null` entry stays as it was. */
  lemma AfterUpdateTouchesOnlyTheUser(entries: map<Key, Entry>, uid: string, updates: Types.UserUpdates)
    ensures var r := AfterUpdate(entries, uid, updates);
      r.Keys == entries.Keys && (forall k :: k in r && k != User(uid) ==> r[k] == entries[k])
      && (User(uid) in entries && entries[User(uid)].data.NullData? ==> r == entries)
  {
  }

  /** `useUpdateUser`: the store update, then, only on success, the cache merge. */
  method UpdateUserMutation(db: Db, client: QueryClient, uid: string, updates: Types.UserUpdates, now: int, fails: bool)
    returns (o: Outcome)
    requires db.Valid()
    modifies db`users, client
    ensures db.Valid()
    ensures o.Done? <==> !fails && uid in old(db.users.docs)
    ensures o.Done? ==> db.users.docs == old(db.users.docs)[uid := Documents.ApplyPayload(old(db.users.docs)[uid], Api.UpdatePayload(updates), now)]
    ensures o.Failed? ==> db.users == old(db.users)
    ensures client.entries == if o.Done? then AfterUpdate(old(client.entries), uid, updates) else old(client.entries)
  {
    if fails {
      return Failed("Failed to update user");
    }
    o := Api.UpdateUser(db, uid, updates, now);
    if o.Done? {
      var cached := client.GetQueryData(User(uid));
      if cached.Some? && cached.value.UserData? {
        client.SetQueryData(User(uid), UserData(Merged(cached.value.user, updates)));
      } else if cached.Some? && cached.value.NewUserData? {
        var merged := MergedIdentity(cached.value.identity, updates);
        client.SetQueryData(User(uid), NewUserData(merged, updates.isAdmin.GetOr(cached.value.isAdmin)));
      }
    }
  }

  // The login and creation mutations

  /** The cache after `useUpsertUserOnLogin` succeeds: the user's entry is invalidated, and the
      admin lookup of the email too when the email is non-empty. */
  function AfterUpsert(entries: map<Key, Entry>, u: Types.UserIdentity): map<Key, Entry> {
    var e := Invalidated(entries, User(u.uid));
    if Present(u.email) then Invalidated(e, IsAdmin(u.email.value)) else e
  }

  /** The upsert's invalidation marks exactly the user's entries and, for a non-empty email, its
      admin lookups stale, and touches no data. */
  lemma AfterUpsertMeaning(entries: map<Key, Entry>, u: Types.UserIdentity)
    ensures var r := AfterUpsert(entries, u);
      r.Keys == entries.Keys && (forall k :: k in r ==> r[k].data == entries[k].data)
      && (forall k :: k in r ==>
            (r[k].stale <==> (entries[k].stale || Matches(k, User(u.uid)) || (Present(u.email) && Matches(k, IsAdmin(u.email.value))))))
  {
  }

  /** `useUpsertUserOnLogin`: the upsert, then, only on success, the invalidation. */
  method UpsertUserOnLoginMutation(db: Db, client: QueryClient, u: Types.UserIdentity, now: int, fails: bool)
    returns (o: Outcome)
    requires db.Valid()
    modifies db`users, client
    ensures db.Valid()
    ensures o.Done? <==> !fails
    ensures o.Failed? ==> db.users == old(db.users) && client.entries == old(client.entries)
    ensures o.Done? && u.uid in old(db.users.docs) ==>
      db.users.docs == old(db.users.docs)[u.uid := Documents.ApplyPayload(old(db.users.docs)[u.uid], Api.LoginPayload(u), now)]
    ensures o.Done? && u.uid !in old(db.users.docs) ==>
      db.users.docs == old(db.users.docs)[u.uid := Documents.Written(Api.CreatePayload(u, false), now)]
    ensures o.Done? ==> client.entries == AfterUpsert(old(client.entries), u)
  {
    if fails {
      return Failed("Error upserting user");
    }
    Api.UpsertUserOnLogin(db, u, now);
    client.InvalidateQueries(User(u.uid));
    if Present(u.email) {
      client.InvalidateQueries(IsAdmin(u.email.value));
    }
    o := Done;
  }

  /** The cache after `useCreateUser` succeeds: the input record is written under `user(uid)` and,
      for a non-empty email, its admin lookup is invalidated. */
  function AfterCreate(entries: map<Key, Entry>, u: Types.UserIdentity, isAdmin: bool): map<Key, Entry> {
    var e := entries[User(u.uid) := Entry(NewUserData(u, isAdmin), false)];
    if Present(u.email) then Invalidated(e, IsAdmin(u.email.value)) else e
  }

  /** `useCreateUser`: the write, then, only on success, the cache effects. */
  method CreateUserMutation(db: Db, client: QueryClient, u: Types.UserIdentity, isAdmin: bool, now: int, fails: bool)
    returns (o: Outcome)
    requires db.Valid()
    modifies db`users, client
    ensures db.Valid()
    ensures o.Done? <==> !fails
    ensures o.Failed? ==> db.users == old(db.users) && client.entries == old(client.entries)
    ensures o.Done? ==> db.users.docs == old(db.users.docs)[u.uid := Documents.Written(Api.CreatePayload(u, isAdmin), now)]
    ensures o.Done? ==> client.entries == AfterCreate(old(client.entries), u, isAdmin)
  {
    if fails {
      return Failed("Failed to create user");
    }
    Api.CreateUser(db, u, isAdmin, now);
    client.SetQueryData(User(u.uid), NewUserData(u, isAdmin));
    if Present(u.email) {
      client.InvalidateQueries(IsAdmin(u.email.value));
    }
    o := Done;
  }

  /** The created record is cached under its own key, fresh, even when the email's admin lookup
      is then invalidated: that longer key never selects the user's key. */
  lemma AfterCreateCachesTheRecord(entries: map<Key, Entry>, u: Types.UserIdentity, isAdmin: bool)
    ensures var r := AfterCreate(entries, u, isAdmin);
      User(u.uid) in r && r[User(u.uid)] == Entry(NewUserData(u, isAdmin), false)
  {
  }

  // A user's own requests

  /** The page size of `useUserFeatureRequests`. */
  const UserPageSize: nat := 12

  /** One page of `useUserFeatureRequests` and the parameter of the page after it. */
  method UserFeatureRequestsPage(db: Db, userId: string, pageParam: Option<Documents.Row>, now: int, fails: bool)
    returns (page: RequestApi.FeatureRequestPage, next: Option<Documents.Row>)
    requires db.Valid()
    ensures var rows := Api.AuthoredRows(db.featureRequests, userId, UserPageSize, pageParam);
      (fails ==> page == RequestApi.FeatureRequestPage([], false, None) && next.None?)
      && (!fails ==> (next.Some? <==> |rows| > UserPageSize))
      && (next.Some? ==> next == Some(rows[UserPageSize - 1]))
      && |page.featureRequests| <= UserPageSize
  {
    ghost var rows := Api.AuthoredRows(db.featureRequests, userId, UserPageSize, pageParam);
    Api.UserPageBounded(db.featureRequests, userId, UserPageSize, pageParam);
    page := Api.GetUserFeatureRequests(db, userId, UserPageSize, pageParam, now, fails);
    next := Requests.NextPageParam(page);
    if !fails {
      NextParamOfUserPage(rows, page, UserPageSize);
    }
  }

  /** A user page's next parameter is its last kept row exactly when the extra row came back. */
  lemma NextParamOfUserPage(rows: seq<Documents.Row>, page: RequestApi.FeatureRequestPage, n: nat)
    requires 0 < n && |rows| <= n + 1
    requires page.hasMore <==> |rows| > n
    requires page.lastDoc == Api.LastRow(Api.Kept(rows, n))
    ensures Requests.NextPageParam(page).Some? <==> |rows| > n
    ensures Requests.NextPageParam(page).Some? ==> Requests.NextPageParam(page) == Some(rows[n - 1])
  {
    if |rows| > n {
      assert Api.Kept(rows, n) == rows[..n];
    }
  }
}
