/** The user operations on the document store: the user converter, creation and the upsert on
    login (which never touches `isAdmin`), reads and updates, the admin lookup by email, a user's
    own requests paged by fetching one extra row, the requests a user voted for, and per-user
    counts. A read failure of the store is the parameter `fails`. */
module UserApi {

  import opened Wrappers
  import opened Documents
  import opened Ordering
  import opened Store
  import opened Types
  import RequestApi = FeatureRequestApi
  import CommentApi

  /** `convertFirestoreUserDoc`: the identity texts become "" when missing or `null`, `isAdmin`
      false, and times follow the timestamp reading rules. */
  function Convert(r: Row, now: int): User {
    var d := r.data;
    User(
      r.id,
      Some(TextOr(d, Email, "")),
      Some(TextOr(d, DisplayName, "")),
      Some(TextOr(d, PhotoURL, "")),
      FlagOr(d, IsAdmin),
      TimeOr(d, CreatedAt, now),
      TimeOr(d, UpdatedAt, now),
      TimeOr(d, LastLoginAt, now))
  }

  /** A converted user never has a `null` identity field; an empty document gives a non-admin with
      empty texts stamped with the current time. */
  lemma ConvertDefaults(r: Row, now: int)
    ensures var u := Convert(r, now);
      u.uid == r.id && u.email.Some? && u.displayName.Some? && u.photoURL.Some?
      && (IsAdmin !in r.data ==> !u.isAdmin)
    ensures Convert(Row(r.id, map[]), now) == User(r.id, Some(""), Some(""), Some(""), false, now, now, now)
  {
  }

  /** The document `createUser` writes: the identity, the flag and three timestamps. */
  function CreatePayload(u: UserIdentity, isAdmin: bool): Payload {
    map[
      Uid := Put(Str(u.uid)),
      Email := Put(NullableText(u.email)),
      DisplayName := Put(NullableText(u.displayName)),
      PhotoURL := Put(NullableText(u.photoURL)),
      IsAdmin := Put(Flag(isAdmin)),
      CreatedAt := ServerTimestamp,
      UpdatedAt := ServerTimestamp,
      LastLoginAt := ServerTimestamp]
  }

  /** A created user reads back with its identity (`null` texts as ""), its flag and all three
      times at the creation time. */
  lemma CreatedReadsBack(u: UserIdentity, isAdmin: bool, now: int, later: int)
    ensures Convert(Row(u.uid, Written(CreatePayload(u, isAdmin), now)), later)
         == User(u.uid, Some(u.email.GetOr("")), Some(u.displayName.GetOr("")), Some(u.photoURL.GetOr("")),
                 isAdmin, now, now, now)
  {
    var d := Written(CreatePayload(u, isAdmin), now);
    NullableTextReadBack(d, Email, u.email);
    NullableTextReadBack(d, DisplayName, u.displayName);
    NullableTextReadBack(d, PhotoURL, u.photoURL);
  }

  /** `createUser`: writes the user document under its uid, replacing any existing one. */
  method CreateUser(db: Db, u: UserIdentity, isAdmin: bool, now: int)
    requires db.Valid()
    modifies db`users
    ensures db.Valid()
    ensures db.users.docs == old(db.users.docs)[u.uid := Written(CreatePayload(u, isAdmin), now)]
  {
    db.users := SetDoc(db.users, u.uid, CreatePayload(u, isAdmin), now);
  }

  /** The update an existing user gets on login: the identity and two timestamps. */
  function LoginPayload(u: UserIdentity): Payload {
    map[
      Email := Put(NullableText(u.email)),
      DisplayName := Put(NullableText(u.displayName)),
      PhotoURL := Put(NullableText(u.photoURL)),
      LastLoginAt := ServerTimestamp,
      UpdatedAt := ServerTimestamp]
  }

  /** A login changes only the identity texts and the login and update times: `isAdmin`, the
      creation time and every other field are as they were. */
  lemma LoginKeepsOtherFields(d: Doc, u: UserIdentity, now: int)
    ensures var r := ApplyPayload(d, LoginPayload(u), now);
      forall f :: f !in {Email, DisplayName, PhotoURL, LastLoginAt, UpdatedAt} ==> (f in r <==> f in d) && (f in d ==> r[f] == d[f])
  {
  }

  /** A logged-in existing user reads back with the new identity, the login time as its last
      login and update time, and its old flag and creation time. */
  lemma LoginReadsBack(id: string, d: Doc, u: UserIdentity, now: int, later: int)
    ensures var r := Convert(Row(id, ApplyPayload(d, LoginPayload(u), now)), later);
      r.email == Some(u.email.GetOr("")) && r.displayName == Some(u.displayName.GetOr(""))
      && r.photoURL == Some(u.photoURL.GetOr(""))
      && r.isAdmin == FlagOr(d, IsAdmin) && r.createdAt == TimeOr(d, CreatedAt, later)
      && r.lastLoginAt == now && r.updatedAt == now
  {
    var r := ApplyPayload(d, LoginPayload(u), now);
    NullableTextReadBack(r, Email, u.email);
    NullableTextReadBack(r, DisplayName, u.displayName);
    NullableTextReadBack(r, PhotoURL, u.photoURL);
  }

  /** `upsertUserOnLogin`: an existing user is updated with the login payload, and a new one is
      created as a non-admin. */
  method UpsertUserOnLogin(db: Db, u: UserIdentity, now: int)
    requires db.Valid()
    modifies db`users
    ensures db.Valid()
    ensures u.uid in old(db.users.docs) ==>
      db.users.docs == old(db.users.docs)[u.uid := ApplyPayload(old(db.users.docs)[u.uid], LoginPayload(u), now)]
    ensures u.uid !in old(db.users.docs) ==>
      db.users.docs == old(db.users.docs)[u.uid := Written(CreatePayload(u, false), now)]
  {
    var existing := GetDoc(db.users, u.uid);
    if existing.Some? {
      var res := UpdateDoc(db.users, u.uid, LoginPayload(u), now);
      db.users := res.value;
    } else {
      db.users := SetDoc(db.users, u.uid, CreatePayload(u, false), now);
    }
  }

  /** `getUser`: the converted user, or `null` when it is absent or the read fails. */
  function GetUser(db: Db, uid: string, now: int, fails: bool): (r: Option<User>)
    reads db
    ensures r.Some? <==> !fails && uid in db.users.docs
    ensures r.Some? ==> r.value == Convert(Row(uid, db.users.docs[uid]), now) && r.value.uid == uid
  {
    if !fails && uid in db.users.docs then Some(Convert(Row(uid, db.users.docs[uid]), now)) else None
  }

  /** The update `updateUser` sends: the given fields and the update time. */
  function UpdatePayload(updates: UserUpdates): Payload {
    var p0 := map[UpdatedAt := ServerTimestamp];
    var p1 := if updates.email.Some? then p0[Email := Put(NullableText(updates.email.value))] else p0;
    var p2 := if updates.displayName.Some? then p1[DisplayName := Put(NullableText(updates.displayName.value))] else p1;
    var p3 := if updates.photoURL.Some? then p2[PhotoURL := Put(NullableText(updates.photoURL.value))] else p2;
    if updates.isAdmin.Some? then p3[IsAdmin := Put(Flag(updates.isAdmin.value))] else p3
  }

  /** After an update each given identity text reads back as given (`null` as ""), each other as
      before. */
  lemma UpdateReadsBackIdentity(id: string, d: Doc, updates: UserUpdates, now: int, later: int)
    ensures var old_ := Convert(Row(id, d), later);
      var r := Convert(Row(id, ApplyPayload(d, UpdatePayload(updates), now)), later);
      r.email == (if updates.email.Some? then Some(updates.email.value.GetOr("")) else old_.email)
      && r.displayName == (if updates.displayName.Some? then Some(updates.displayName.value.GetOr("")) else old_.displayName)
      && r.photoURL == (if updates.photoURL.Some? then Some(updates.photoURL.value.GetOr("")) else old_.photoURL)
  {
    UpdatedText(d, updates, now, Email, updates.email);
    UpdatedText(d, updates, now, DisplayName, updates.displayName);
    UpdatedText(d, updates, now, PhotoURL, updates.photoURL);
  }

  /** One identity text after an update: as given, or as before. */
  lemma UpdatedText(d: Doc, updates: UserUpdates, now: int, f: Field, given: Option<Option<string>>)
    requires (f == Email && given == updates.email) || (f == DisplayName && given == updates.displayName)
      || (f == PhotoURL && given == updates.photoURL)
    ensures TextOr(ApplyPayload(d, UpdatePayload(updates), now), f, "") == if given.Some? then given.value.GetOr("") else TextOr(d, f, "")
  {
    var r := ApplyPayload(d, UpdatePayload(updates), now);
    if given.Some? {
      assert f in UpdatePayload(updates) && UpdatePayload(updates)[f] == Put(NullableText(given.value));
      NullableTextReadBack(r, f, given.value);
    } else {
      assert f !in UpdatePayload(updates);
    }
  }

  /** After an update the flag reads back as given or as before, the creation and login times are
      kept, and the update time is the update's. */
  lemma UpdateReadsBackFlagAndTimes(id: string, d: Doc, updates: UserUpdates, now: int, later: int)
    ensures var old_ := Convert(Row(id, d), later);
      var r := Convert(Row(id, ApplyPayload(d, UpdatePayload(updates), now)), later);
      r.isAdmin == updates.isAdmin.GetOr(old_.isAdmin)
      && r.createdAt == old_.createdAt && r.lastLoginAt == old_.lastLoginAt && r.updatedAt == now
  {
  }

  /** `updateUser`: fails when the user does not exist. */
  method UpdateUser(db: Db, uid: string, updates: UserUpdates, now: int) returns (o: Outcome)
    requires db.Valid()
    modifies db`users
    ensures db.Valid()
    ensures o.Done? <==> uid in old(db.users.docs)
    ensures o.Done? ==> db.users.docs == old(db.users.docs)[uid := ApplyPayload(old(db.users.docs)[uid], UpdatePayload(updates), now)]
    ensures o.Failed? ==> db.users == old(db.users)
  {
    var res := UpdateDoc(db.users, uid, UpdatePayload(updates), now);
    match res
    case Ok(c) =>
      db.users := c;
      o := Done;
    case Err(m) =>
      o := Failed(m);
  }

  /** The query of `checkIsAdmin`: the users with this email, in id order. */
  function EmailQuery(email: string): Query {
    Query([FieldEquals(Email, Str(email))], None, None, None)
  }

  /** `checkIsAdmin`: false for an empty email or when no user has it; otherwise the flag of the
      first user with it. */
  function CheckIsAdmin(c: Collection, email: string): bool
    requires c.Valid()
  {
    if email == "" then false
    else
      var rows := Run(c, EmailQuery(email));
      if rows == [] then false else FlagOr(rows[0].data, IsAdmin)
  }

  /** A user is reported as an admin only when a stored user with that non-empty email has the flag
      set; an email nobody has is never an admin. */
  lemma CheckIsAdminSound(c: Collection, email: string)
    requires c.Valid()
    ensures CheckIsAdmin(c, email) ==> email != "" && exists id :: (id in c.docs && Email in c.docs[id]
      && c.docs[id][Email] == Str(email) && FlagOr(c.docs[id], IsAdmin))
    ensures (forall id :: id in c.docs ==> Email !in c.docs[id] || c.docs[id][Email] != Str(email)) ==> !CheckIsAdmin(c, email)
  {
    var rows := Run(c, EmailQuery(email));
    if email != "" && rows != [] {
      assert rows[0] in rows;
      assert Holds(EmailQuery(email).wheres[0], rows[0].data);
    }
  }

  /** When exactly one stored user has the email, the answer is that user's flag. */
  lemma CheckIsAdminOfUniqueUser(c: Collection, email: string, id: string)
    requires c.Valid() && email != ""
    requires id in c.docs && Email in c.docs[id] && c.docs[id][Email] == Str(email)
    requires forall other :: other in c.docs && other != id ==> Email !in c.docs[other] || c.docs[other][Email] != Str(email)
    ensures CheckIsAdmin(c, email) == FlagOr(c.docs[id], IsAdmin)
  {
    var q := EmailQuery(email);
    assert Holds(q.wheres[0], c.docs[id]);
    RunComplete(c, q, id);
    var rows := Run(c, q);
    assert rows[0] in rows;
    assert Holds(q.wheres[0], rows[0].data);
  }

  /** The update `updateUserAdminStatus` sends; the acting admin is not recorded. */
  function AdminStatusPayload(isAdmin: bool): Payload {
    map[IsAdmin := Put(Flag(isAdmin)), UpdatedAt := ServerTimestamp]
  }

  /** Changing the admin status changes only the flag and the update time, and the flag reads back. */
  lemma AdminStatusChangesOnlyFlag(d: Doc, isAdmin: bool, now: int)
    ensures var r := ApplyPayload(d, AdminStatusPayload(isAdmin), now);
      FlagOr(r, IsAdmin) == isAdmin && r[UpdatedAt] == Time(now)
      && forall f :: f != IsAdmin && f != UpdatedAt ==> (f in r <==> f in d) && (f in d ==> r[f] == d[f])
  {
  }

  /** `updateUserAdminStatus`: fails when the user does not exist; `updatedBy` is not used. */
  method UpdateUserAdminStatus(db: Db, uid: string, isAdmin: bool, updatedBy: string, now: int) returns (o: Outcome)
    requires db.Valid()
    modifies db`users
    ensures db.Valid()
    ensures o.Done? <==> uid in old(db.users.docs)
    ensures o.Done? ==> db.users.docs == old(db.users.docs)[uid := ApplyPayload(old(db.users.docs)[uid], AdminStatusPayload(isAdmin), now)]
    ensures o.Failed? ==> db.users == old(db.users)
  {
    var res := UpdateDoc(db.users, uid, AdminStatusPayload(isAdmin), now);
    match res
    case Ok(c) =>
      db.users := c;
      o := Done;
    case Err(m) =>
      o := Failed(m);
  }

  /** The query of `getAdminUsers`. */
  function AdminQuery(): Query {
    Query([FieldEquals(IsAdmin, Flag(true))], None, None, None)
  }

  /** `getAdminUsers`: every user whose flag is stored as `true`, converted. */
  function GetAdminUsers(c: Collection, now: int): seq<User>
    requires c.Valid()
  {
    var rows := Run(c, AdminQuery());
    seq(|rows|, i requires 0 <= i < |rows| => Convert(rows[i], now))
  }

  /** Every listed admin is a stored user with the flag set. */
  lemma AdminUsersAreAdmins(c: Collection, now: int)
    requires c.Valid()
    ensures forall u :: u in GetAdminUsers(c, now) ==> u.isAdmin && u.uid in c.docs
  {
    var rows := Run(c, AdminQuery());
    var users := GetAdminUsers(c, now);
    forall u | u in users ensures u.isAdmin && u.uid in c.docs {
      var i :| 0 <= i < |users| && users[i] == u;
      assert rows[i] in rows;
      SelectedAdmin(rows[i], now);
    }
  }

  /** A row the admin query selects converts to an admin. */
  lemma SelectedAdmin(x: Row, now: int)
    requires Selects(AdminQuery(), x)
    ensures Convert(x, now).isAdmin
  {
    assert Holds(AdminQuery().wheres[0], x.data);
  }

  /** Every stored user with the flag stored as `true` is listed. */
  lemma AdminsAreListed(c: Collection, now: int, id: string)
    requires c.Valid()
    requires id in c.docs && IsAdmin in c.docs[id] && c.docs[id][IsAdmin] == Flag(true)
    ensures Convert(Row(id, c.docs[id]), now) in GetAdminUsers(c, now)
  {
    var rows := Run(c, AdminQuery());
    assert Holds(AdminQuery().wheres[0], c.docs[id]);
    RunComplete(c, AdminQuery(), id);
    var i :| 0 <= i < |rows| && rows[i] == Row(id, c.docs[id]);
    assert GetAdminUsers(c, now)[i] == Convert(Row(id, c.docs[id]), now);
  }

  /** The query of `getUserFeatureRequests`: the user's requests, newest first, one more than the
      page size, after the cursor. */
  function AuthoredQuery(userId: string, limitCount: nat, cursor: Option<Row>): Query {
    Query([FieldEquals(AuthorId, Str(userId))], Some(OrderBy(CreatedAt, Desc)), Some(limitCount + 1), cursor)
  }

  /** The rows the query of a user page returns. */
  function AuthoredRows(c: Collection, userId: string, limitCount: nat, cursor: Option<Row>): seq<Row>
    requires c.Valid()
  {
    Run(c, AuthoredQuery(userId, limitCount, cursor))
  }

  /** The rows a page keeps: all of them, or all but the extra one when it came back. */
  function Kept(rows: seq<Row>, limitCount: nat): seq<Row> {
    if |rows| > limitCount then rows[..|rows| - 1] else rows
  }

  /** `getUserFeatureRequests`: on a failure an empty page without more; otherwise the fetched rows
      without the extra one, `hasMore` when it came back, and the last kept row as the cursor. */
  method GetUserFeatureRequests(db: Db, userId: string, limitCount: nat, lastDoc: Option<Row>, now: int, fails: bool)
    returns (page: RequestApi.FeatureRequestPage)
    requires db.Valid()
    ensures fails ==> page == RequestApi.FeatureRequestPage([], false, None)
    ensures !fails ==> |page.featureRequests| == |Kept(AuthoredRows(db.featureRequests, userId, limitCount, lastDoc), limitCount)|
    ensures !fails ==> var kept := Kept(AuthoredRows(db.featureRequests, userId, limitCount, lastDoc), limitCount);
      forall i :: 0 <= i < |kept| ==> page.featureRequests[i] == RequestApi.Convert(kept[i], now)
    ensures !fails ==> (page.hasMore <==> |AuthoredRows(db.featureRequests, userId, limitCount, lastDoc)| > limitCount)
    ensures !fails ==> page.lastDoc == LastRow(Kept(AuthoredRows(db.featureRequests, userId, limitCount, lastDoc), limitCount))
  {
    if fails {
      return RequestApi.FeatureRequestPage([], false, None);
    }
    var q := Query([FieldEquals(AuthorId, Str(userId))], Some(OrderBy(CreatedAt, Desc)), Some(limitCount + 1), None);
    if lastDoc.Some? {
      q := q.(startAfter := lastDoc);
    }
    assert q == AuthoredQuery(userId, limitCount, lastDoc);
    var rows := Run(db.featureRequests, q);
    assert rows == AuthoredRows(db.featureRequests, userId, limitCount, lastDoc);
    var featureRequests, docs := CollectRows(rows, now);
    var hasMore, lastDocument;
    featureRequests, hasMore, lastDocument := DropExtra(featureRequests, docs, limitCount);
    page := RequestApi.FeatureRequestPage(featureRequests, hasMore, lastDocument);
  }

  /** The `forEach` that collects each returned document and its conversion, in order. */
  method CollectRows(rows: seq<Row>, now: int) returns (featureRequests: seq<FeatureRequest>, docs: seq<Row>)
    ensures docs == rows && |featureRequests| == |rows|
    ensures forall k :: 0 <= k < |rows| ==> featureRequests[k] == RequestApi.Convert(rows[k], now)
  {
    featureRequests, docs := [], [];
    var i := 0;
    while i < |rows|
      invariant 0 <= i <= |rows|
      invariant |featureRequests| == i && docs == rows[..i]
      invariant forall k :: 0 <= k < i ==> featureRequests[k] == RequestApi.Convert(rows[k], now)
    {
      featureRequests := featureRequests + [RequestApi.Convert(rows[i], now)];
      docs := docs + [rows[i]];
      i := i + 1;
    }
  }

  /** The last row, if any. */
  function LastRow(rows: seq<Row>): Option<Row> {
    if rows == [] then None else Some(rows[|rows| - 1])
  }

  /** The check for more, the `pop()` of the extra document from both arrays and the cursor of the
      next page. */
  method DropExtra(featureRequests: seq<FeatureRequest>, docs: seq<Row>, limitCount: nat)
    returns (keptRequests: seq<FeatureRequest>, hasMore: bool, lastDocument: Option<Row>)
    requires |featureRequests| == |docs|
    ensures hasMore <==> |docs| > limitCount
    ensures |keptRequests| == |Kept(docs, limitCount)|
    ensures forall i :: 0 <= i < |keptRequests| ==> keptRequests[i] == featureRequests[i]
    ensures lastDocument == LastRow(Kept(docs, limitCount))
  {
    var keptDocs;
    keptRequests, keptDocs := featureRequests, docs;
    hasMore := |keptRequests| > limitCount;
    if hasMore {
      keptRequests := keptRequests[..|keptRequests| - 1];
      keptDocs := keptDocs[..|keptDocs| - 1];
    }
    lastDocument := if |keptDocs| > 0 then Some(keptDocs[|keptDocs| - 1]) else None;
  }

  /** A user page holds at most `limitCount` requests, newest first; `hasMore` holds exactly when
      one more came back than the page keeps. */
  lemma UserPageBounded(c: Collection, userId: string, limitCount: nat, cursor: Option<Row>)
    requires c.Valid()
    ensures var rows := AuthoredRows(c, userId, limitCount, cursor);
      var kept := Kept(rows, limitCount);
      |kept| <= limitCount && kept <= rows
      && (|rows| > limitCount <==> |rows| == limitCount + 1)
      && StrictlySorted(Some(OrderBy(CreatedAt, Desc)), kept)
  {
  }

  /** Every request of a user page is the user's own. */
  lemma UserPageAuthored(c: Collection, userId: string, limitCount: nat, cursor: Option<Row>, now: int)
    requires c.Valid()
    ensures var kept := Kept(AuthoredRows(c, userId, limitCount, cursor), limitCount);
      forall i :: 0 <= i < |kept| ==> RequestApi.Convert(kept[i], now).authorId == userId
  {
    var rows := AuthoredRows(c, userId, limitCount, cursor);
    var kept := Kept(rows, limitCount);
    forall i | 0 <= i < |kept| ensures RequestApi.Convert(kept[i], now).authorId == userId {
      assert kept[i] == rows[i];
      assert rows[i] in rows;
      SelectedAuthored(AuthoredQuery(userId, limitCount, cursor), userId, rows[i], now);
    }
  }

  /** A row selected by a condition on the author carries that author. */
  lemma SelectedAuthored(q: Query, userId: string, x: Row, now: int)
    requires |q.wheres| > 0 && q.wheres[0] == FieldEquals(AuthorId, Str(userId)) && Selects(q, x)
    ensures RequestApi.Convert(x, now).authorId == userId
  {
    assert Holds(q.wheres[0], x.data);
  }

  /** The row a first page drops is the first row of the page after it: paging by the last kept row
      skips nothing. */
  lemma DroppedRowStartsNextPage(c: Collection, userId: string, limitCount: nat)
    requires c.Valid() && limitCount > 0
    requires |Run(c, AuthoredQuery(userId, limitCount, None))| > limitCount
    ensures var rows := Run(c, AuthoredQuery(userId, limitCount, None));
      var next := Run(c, AuthoredQuery(userId, limitCount, Some(rows[limitCount - 1])));
      next != [] && next[0] == rows[limitCount]
  {
    var q := AuthoredQuery(userId, limitCount, None);
    FirstPage(c, q);
    var s := Ordered(c, q);
    var rows := Run(c, q);
    assert rows[limitCount - 1] == s[limitCount - 1] && rows[limitCount] == s[limitCount];
    var q2 := AuthoredQuery(userId, limitCount, Some(rows[limitCount - 1]));
    assert Ordered(c, q2) == s;
    PageAfter(c, q2, limitCount - 1);
  }

  /** The query of `getUserVotedFeatureRequests`: the requests the user voted for, newest first. */
  function VotedQuery(userId: string): Query {
    Query([ArrayContains(UpvotedBy, userId)], Some(OrderBy(CreatedAt, Desc)), None, None)
  }

  /** `getUserVotedFeatureRequests`: the converted requests the user voted for, or none on a failure. */
  method GetUserVotedFeatureRequests(db: Db, userId: string, now: int, fails: bool) returns (items: seq<FeatureRequest>)
    requires db.Valid()
    ensures fails ==> items == []
    ensures !fails ==> var rows := Run(db.featureRequests, VotedQuery(userId));
      |items| == |rows| && forall i :: 0 <= i < |rows| ==> items[i] == RequestApi.Convert(rows[i], now)
  {
    if fails {
      return [];
    }
    var rows := Run(db.featureRequests, VotedQuery(userId));
    items := RequestApi.ConvertRows(rows, now);
  }

  /** Every request the user voted for lists the user among its voters. */
  lemma VotedRequestsHaveTheVoter(c: Collection, userId: string, now: int)
    requires c.Valid()
    ensures var rows := Run(c, VotedQuery(userId));
      forall i :: 0 <= i < |rows| ==> userId in RequestApi.Convert(rows[i], now).upvotedBy
  {
    var rows := Run(c, VotedQuery(userId));
    forall i | 0 <= i < |rows| ensures userId in RequestApi.Convert(rows[i], now).upvotedBy {
      assert rows[i] in rows;
      SelectedVoted(userId, rows[i], now);
    }
  }

  /** A row the vote query selects lists the voter. */
  lemma SelectedVoted(userId: string, x: Row, now: int)
    requires Selects(VotedQuery(userId), x)
    ensures userId in RequestApi.Convert(x, now).upvotedBy
  {
    assert Holds(VotedQuery(userId).wheres[0], x.data);
  }

  /** The numbers `getUserStats` returns. */
  datatype UserStats = UserStats(featureRequestsCount: nat, commentsCount: nat)

  /** The conditions both counts of `getUserStats` use. */
  function AuthoredBy(userId: string): seq<Where> {
    [FieldEquals(AuthorId, Str(userId))]
  }

  /** `getUserStats`: the numbers of requests and comments the user wrote, or zeros on a failure. */
  function GetUserStats(db: Db, userId: string, fails: bool): (r: UserStats)
    reads db
    requires db.Valid()
    ensures fails ==> r == UserStats(0, 0)
    ensures !fails ==> (r.featureRequestsCount == |Selected(AuthoredBy(userId), None, Rows(db.featureRequests))|
      && r.commentsCount == |Selected(AuthoredBy(userId), None, Rows(db.comments))|)
  {
    if fails then UserStats(0, 0)
    else UserStats(Count(db.featureRequests, AuthoredBy(userId)), Count(db.comments, AuthoredBy(userId)))
  }

  /** A new comment raises the comment count of its author, and of nobody else. */
  lemma StatsAfterComment(c: Collection, data: CreateCommentData, authorId: string, authorName: string, authorEmail: string,
                          authorPhotoURL: Option<string>, now: int, userId: string)
    requires c.Valid()
    ensures var c2 := AddDoc(c, CommentApi.CreatePayload(data, authorId, authorName, authorEmail, authorPhotoURL), now).1;
      Count(c2, AuthoredBy(userId)) == Count(c, AuthoredBy(userId)) + (if userId == authorId then 1 else 0)
  {
    var p := CommentApi.CreatePayload(data, authorId, authorName, authorEmail, authorPhotoURL);
    CountAfterAdd(c, AuthoredBy(userId), p, now);
    AuthoredComment(data, authorId, authorName, authorEmail, authorPhotoURL, now, userId);
  }

  /** A created comment satisfies exactly its own author's condition. */
  lemma AuthoredComment(data: CreateCommentData, authorId: string, authorName: string, authorEmail: string,
                        authorPhotoURL: Option<string>, now: int, userId: string)
    ensures HoldsAll(AuthoredBy(userId), Written(CommentApi.CreatePayload(data, authorId, authorName, authorEmail, authorPhotoURL), now))
        <==> userId == authorId
  {
    var p := CommentApi.CreatePayload(data, authorId, authorName, authorEmail, authorPhotoURL);
    var d := Written(p, now);
    assert AuthorId in p && p[AuthorId] == Put(Str(authorId));
    assert d[AuthorId] == Str(authorId);
    assert HoldsAll(AuthoredBy(userId), d) <==> Holds(AuthoredBy(userId)[0], d);
  }
}
