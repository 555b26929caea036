/** The signed-in user as the auth hook and the auth provider derive it: the stored record when it
    has loaded, otherwise a record built from the sign-in identity with the admin lookup's answer;
    the loading flag; the handler that runs on every change of identity; and the guard of
    `useAuth`. The sign-in identity arrives as an input event. */
module Auth {

  import opened Wrappers
  import opened Types
  import Documents
  import Store
  import QueryCache
  import UserApi
  import UserQueries

  /** `user`: none without an identity; the stored record when loaded; otherwise the identity's
      uid and texts, the admin lookup's answer (false while it has none) and the current time as
      all three times. */
  function DerivedUser(identity: Option<UserIdentity>, stored: Option<User>, isAdminLookup: Option<bool>, now: int)
    : (r: Option<User>)
    ensures r.Some? <==> identity.Some?
    ensures identity.Some? && stored.Some? ==> r == stored
    ensures identity.Some? && stored.None? ==>
      r.value.uid == identity.value.uid && r.value.email == identity.value.email
      && r.value.displayName == identity.value.displayName && r.value.photoURL == identity.value.photoURL
      && (r.value.isAdmin <==> isAdminLookup == Some(true))
  {
    match identity
    case None => None
    case Some(u) =>
      if stored.Some? then stored
      else Some(User(u.uid, u.email, u.displayName, u.photoURL, isAdminLookup.GetOr(false), now, now, now))
  }

  /** Two texts that read the same once `null` is taken as "". */
  predicate SameText(a: Option<string>, b: Option<string>) {
    a.GetOr("") == b.GetOr("")
  }

  /** The user document after the login upsert of `u`, given the document before it, if any. */
  function AfterLogin(before: Option<Documents.Doc>, u: UserIdentity, now: int): Documents.Doc {
    match before
    case Some(d) => Documents.ApplyPayload(d, UserApi.LoginPayload(u), now)
    case None => Documents.Written(UserApi.CreatePayload(u, false), now)
  }

  /** After the login upsert, whether the stored record has loaded or not, the derived user carries
      the signed-in uid and texts (up to `null` read as ""). Once the record has loaded it shows
      the login time and the admin flag stored before the login: logging in never grants admin. */
  lemma DerivedUserCarriesIdentity(before: Option<Documents.Doc>, u: UserIdentity, stored: Option<User>,
                                   isAdminLookup: Option<bool>, now: int, later: int)
    requires stored.None? || stored == Some(UserApi.Convert(Documents.Row(u.uid, AfterLogin(before, u, now)), later))
    ensures var r := DerivedUser(Some(u), stored, isAdminLookup, later);
      r.Some? && r.value.uid == u.uid && SameText(r.value.email, u.email)
      && SameText(r.value.displayName, u.displayName) && SameText(r.value.photoURL, u.photoURL)
    ensures stored.Some? ==> var r := DerivedUser(Some(u), stored, isAdminLookup, later).value;
      r.lastLoginAt == now && (r.isAdmin <==> before.Some? && Documents.FlagOr(before.value, Documents.IsAdmin))
  {
    if stored.Some? {
      match before
      case Some(d) => UserApi.LoginReadsBack(u.uid, d, u, now, later);
      case None => UserApi.CreatedReadsBack(u, false, now, later);
    }
  }

  /** The hook's `loading || (firebaseUser && firestoreLoading)`: `true`, or, when the auth event
      has arrived, `null` without an identity (None here) and the record's loading flag with one. */
  function HookLoading(loading: bool, identity: Option<UserIdentity>, recordLoading: bool): (r: Option<bool>)
    ensures loading ==> r == Some(true)
    ensures !loading && identity.None? ==> r.None?
    ensures !loading && identity.Some? ==> r == Some(recordLoading)
  {
    if loading then Some(true) else if identity.None? then None else Some(recordLoading)
  }

  /** The provider's `loading || (!!firebaseUser && firestoreLoading)`, always a boolean. */
  function ProviderLoading(loading: bool, identity: Option<UserIdentity>, recordLoading: bool): bool {
    loading || (identity.Some? && recordLoading)
  }

  /** The hook and the provider agree on whether the user is loading; only the provider's value
      is always a boolean. */
  lemma LoadingAgrees(loading: bool, identity: Option<UserIdentity>, recordLoading: bool)
    ensures var h := HookLoading(loading, identity, recordLoading);
      (h == Some(true)) <==> ProviderLoading(loading, identity, recordLoading)
  {
  }

  /** Once the first auth event has been handled, nothing loads without an identity, and with one
      exactly while its record loads. */
  lemma LoadingAfterAuthEvent(identity: Option<UserIdentity>, recordLoading: bool)
    ensures !ProviderLoading(false, None, recordLoading)
    ensures identity.Some? ==> (ProviderLoading(false, identity, recordLoading) <==> recordLoading)
  {
  }

  /** The value the provider shares. */
  datatype AuthValue = AuthValue(user: Option<User>, loading: bool)

  /** `useAuth`: the provider's value, or an error outside a provider. */
  function UseAuth(context: Option<AuthValue>): (r: Result<AuthValue>)
    ensures r.Ok? <==> context.Some?
    ensures r.Ok? ==> r.value == context.value
  {
    match context
    case Some(v) => Ok(v)
    case None => Err("useAuth must be used within an AuthProvider")
  }

  /** The auth state of the hook or the provider: the identity and the flag cleared by the first
      auth event. */
  class AuthSession {
    var identity: Option<UserIdentity>
    var loading: bool

    constructor ()
      ensures identity.None? && loading
    {
      identity := None;
      loading := true;
    }

    /** The shared value, given what the record and the admin queries hold. */
    function Value(stored: Option<User>, isAdminLookup: Option<bool>, recordLoading: bool, now: int): (v: AuthValue)
      reads this
      ensures v.user.Some? <==> identity.Some?
      ensures !loading ==> (v.loading <==> identity.Some? && recordLoading)
    {
      AuthValue(DerivedUser(identity, stored, isAdminLookup, now), ProviderLoading(loading, identity, recordLoading))
    }

    /** The `onAuthStateChanged` handler: records the identity, upserts the user for a non-null
        identity (a failed upsert is caught and changes nothing), then clears `loading`. */
    method OnAuthStateChanged(db: Store.Db, client: QueryCache.QueryClient, user: Option<UserIdentity>, now: int, upsertFails: bool)
      requires db.Valid()
      modifies this, db`users, client
      ensures db.Valid()
      ensures identity == user && !loading
      ensures user.None? || upsertFails ==> db.users == old(db.users) && client.entries == old(client.entries)
      ensures user.Some? && !upsertFails ==>
        db.users.docs == old(db.users.docs)[user.value.uid := AfterLogin(Store.GetDoc(old(db.users), user.value.uid), user.value, now)]
        && client.entries == UserQueries.AfterUpsert(old(client.entries), user.value)
    {
      identity := user;
      if user.Some? {
        var o := UserQueries.UpsertUserOnLoginMutation(db, client, user.value, now, upsertFails);
      }
      loading := false;
    }
  }
}
