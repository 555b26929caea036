/** The feature-request card: whether the user has upvoted it, who may edit or delete it, the
    badge variant of its status, when its actions menu shows, and its upvote button, which ignores
    clicks without a user and while an earlier upvote is still in flight. The click handler is
    split at its `await`: `BeginUpvote` runs before it and `EndUpvote` in its `finally`. */
module RequestCard {

  import opened Wrappers
  import opened Types
  import Store
  import QueryCache
  import Constants
  import Permissions
  import FeatureRequestApi
  import FeatureRequestQueries

  /** `hasUpvoted`: a signed-in user whose uid is among the voters. */
  predicate HasUpvoted(user: Option<User>, fr: FeatureRequest) {
    user.Some? && user.value.uid in fr.upvotedBy
  }

  /** The optimistic toggle the click starts flips what the button shows for that user. */
  lemma ToggleFlipsHasUpvoted(u: User, fr: FeatureRequest)
    ensures HasUpvoted(Some(u), FeatureRequestQueries.OptimisticToggle(fr, u.uid)) <==> !HasUpvoted(Some(u), fr)
  {
    FeatureRequestQueries.OptimisticToggleMeaning(fr, u.uid);
  }

  /** `statusColors`, keyed by status name. */
  const StatusColors: map<string, string> := map[
    "Open" := "default",
    "In Progress" := "info",
    "Completed" := "success",
    "Won't Do" := "destructive",
    "Pending" := "warning",
    "Under Discussion" := "secondary",
    "Will Do" := "success"]

  /** `statusColors[status] || "default"`. */
  function StatusVariant(status: string): (v: string)
    ensures status in StatusColors ==> v == StatusColors[status]
    ensures status !in StatusColors ==> v == "default"
  {
    if status in StatusColors then StatusColors[status] else "default"
  }

  /** The colour map misses two of the seven statuses, which get the "default" variant, and two
      of its keys name no status at all. */
  lemma StatusVariants()
    ensures StatusVariant(Constants.StatusName(Constants.Considering)) == "default"
    ensures StatusVariant(Constants.StatusName(Constants.Archived)) == "default"
    ensures StatusVariant(Constants.StatusName(Constants.InProgress)) == "info"
    ensures StatusVariant(Constants.StatusName(Constants.WillDo)) == StatusVariant(Constants.StatusName(Constants.Completed)) == "success"
    ensures forall s: Constants.Status :: Constants.StatusName(s) != "Pending" && Constants.StatusName(s) != "Under Discussion"
  {
  }

  /** Whether a user may edit, and equally delete, the request: an admin or its author. */
  predicate CanModify(user: Option<User>, fr: FeatureRequest) {
    Permissions.MayModify(user, fr.authorId)
  }

  /** The actions menu shows only when the card allows actions and the user may edit or delete. */
  predicate ShowsMenu(showActions: bool, user: Option<User>, fr: FeatureRequest) {
    showActions && CanModify(user, fr)
  }

  /** Nobody signed out ever sees the menu; an admin sees it on every card that allows actions. */
  lemma MenuVisibility(showActions: bool, user: Option<User>, fr: FeatureRequest)
    ensures user.None? ==> !ShowsMenu(showActions, user, fr)
    ensures user.Some? && user.value.isAdmin ==> (ShowsMenu(showActions, user, fr) <==> showActions)
    ensures user.Some? && user.value.uid == fr.authorId ==> (ShowsMenu(showActions, user, fr) <==> showActions)
  {
  }

  class Card {
    var isUpvoting: bool

    constructor ()
      ensures !isUpvoting
    {
      isUpvoting := false;
    }

    /** The start of `handleUpvote`: without a user, or while an upvote is in flight, the click is
        ignored; otherwise an upvote is now in flight. */
    method BeginUpvote(user: Option<User>) returns (go: bool)
      modifies this
      ensures go <==> user.Some? && !old(isUpvoting)
      ensures isUpvoting == (old(isUpvoting) || go)
    {
      if user.None? || isUpvoting {
        return false;
      }
      isUpvoting := true;
      go := true;
    }

    /** The `finally` of `handleUpvote`: the upvote is no longer in flight. */
    method EndUpvote()
      modifies this
      ensures !isUpvoting
    {
      isUpvoting := false;
    }

    /** A whole click: when it goes ahead, the user's vote on the request is toggled through the
        upvote mutation (which may fail and roll back) and the card is free again afterwards; when
        it does not, the store and the cache are untouched. */
    method Upvote(db: Store.Db, client: QueryCache.QueryClient, fr: FeatureRequest, user: Option<User>, now: int, fails: bool)
      returns (o: Option<Outcome>)
      requires db.Valid()
      modifies this, db`featureRequests, client
      ensures db.Valid()
      ensures o.Some? <==> user.Some? && !old(isUpvoting)
      ensures o.None? ==>
        (db.featureRequests == old(db.featureRequests) && client.entries == old(client.entries)
         && isUpvoting == old(isUpvoting))
      ensures o.Some? ==> !isUpvoting
      ensures o.Some? ==> (o.value.Done? <==> !fails && fr.id in old(db.featureRequests.docs))
      ensures o.Some? && o.value.Done? ==>
        db.featureRequests.docs == old(db.featureRequests.docs)[fr.id := FeatureRequestApi.Toggled(old(db.featureRequests.docs)[fr.id], user.value.uid, now)]
      ensures o.Some? && o.value.Failed? ==> db.featureRequests == old(db.featureRequests)
      ensures o.Some? ==> client.entries == FeatureRequestQueries.AfterMutation(old(client.entries), fr.id,
        FeatureRequestQueries.ToggleBy(user.value.uid), o.value.Failed?)
    {
      var go := BeginUpvote(user);
      if !go {
        return None;
      }
      var r := FeatureRequestQueries.ToggleUpvoteMutation(db, client, fr.id, user.value.uid, now, fails);
      EndUpvote();
      o := Some(r);
    }
  }

  /** A second click while the first upvote is in flight is ignored: only one toggle runs. */
  method DoubleClick(card: Card, user: User) returns (first: bool, second: bool)
    requires !card.isUpvoting
    modifies card
    ensures first && !second && card.isUpvoting
  {
    first := card.BeginUpvote(Some(user));
    second := card.BeginUpvote(Some(user));
  }
}
