/** The feature-request hooks' cache logic: the hierarchical query keys, the
    optimistic cache updates of the upvote toggle and of the comment counter,
    their rollback on error and invalidation on settle, and the next-page
    parameter of the infinite list. */
module FeatureRequestQueries {

  import opened Wrappers
  import Seqs
  import opened Types
  import opened Documents
  import opened Store
  import opened QueryCache
  import Api = FeatureRequestApi

  // Query keys

  function All(): Key { [Word("featureRequests")] }
  function Lists(): Key { All() + [Word("list")] }
  function List(p: FeatureRequestsQuery): Key { Lists() + [FeatureRequestParams(p)] }
  function Details(): Key { All() + [Word("detail")] }
  function Detail(id: string): Key { Details() + [Word(id)] }
  function Search(term: string): Key { All() + [Word("search"), Word(term)] }

  /** `lists()` selects every list key and no detail or search key. */
  lemma ListsSelectsExactlyLists(p: FeatureRequestsQuery, id: string, term: string)
    ensures Matches(List(p), Lists())
    ensures !Matches(Detail(id), Lists()) && !Matches(Search(term), Lists())
  {
    MatchesExtension(Lists(), [FeatureRequestParams(p)]);
    WordMismatch(Detail(id), Lists(), 1);
    WordMismatch(Search(term), Lists(), 1);
  }

  /** `details()` selects every detail key, and `detail(id)` selects no other request's detail
      and no list. */
  lemma DetailSelectsOnlyItsRequest(id: string, other: string, p: FeatureRequestsQuery)
    ensures Matches(Detail(id), Details())
    ensures Matches(Detail(other), Detail(id)) <==> other == id
    ensures !Matches(List(p), Detail(id))
  {
    MatchesExtension(Details(), [Word(id)]);
    if other != id {
      WordMismatch(Detail(other), Detail(id), 2);
    }
    WordMismatch(List(p), Detail(id), 1);
  }

  /** Every key of these hooks lies under `all`. */
  lemma AllCoversEveryKey(p: FeatureRequestsQuery, id: string, term: string)
    ensures Matches(List(p), All()) && Matches(Detail(id), All()) && Matches(Search(term), All())
  {
    MatchesExtension(All(), [Word("list"), FeatureRequestParams(p)]);
    MatchesExtension(All(), [Word("detail"), Word(id)]);
    MatchesExtension(All(), [Word("search"), Word(term)]);
  }

  // Optimistic values

  /** The optimistic toggle: a voter loses the vote and every occurrence of their id, anyone else
      gains a vote and is appended. */
  function OptimisticToggle(fr: FeatureRequest, userId: string): FeatureRequest {
    if userId in fr.upvotedBy then fr.(upvotes := fr.upvotes - 1, upvotedBy := Seqs.RemoveAll(fr.upvotedBy, userId))
    else fr.(upvotes := fr.upvotes + 1, upvotedBy := fr.upvotedBy + [userId])
  }

  /** The optimistic toggle of one user's vote, as a cache update. */
  function ToggleBy(userId: string): FeatureRequest -> FeatureRequest {
    fr => OptimisticToggle(fr, userId)
  }

  /** The optimistic toggle flips the user's vote, moves the counter with it, keeps every other
      voter, and changes no other field. */
  lemma OptimisticToggleMeaning(fr: FeatureRequest, userId: string)
    ensures var r := OptimisticToggle(fr, userId);
      (userId in r.upvotedBy <==> userId !in fr.upvotedBy)
      && r.upvotes == fr.upvotes + (if userId in fr.upvotedBy then -1 else 1)
      && (forall x :: x != userId ==> (x in r.upvotedBy <==> x in fr.upvotedBy))
      && r.(upvotes := fr.upvotes, upvotedBy := fr.upvotedBy) == fr
  {
  }

  /** Two optimistic toggles restore the counter and the voters as a set, and the voter list
      exactly when the user had not voted. */
  lemma OptimisticToggleTwice(fr: FeatureRequest, userId: string)
    ensures var r := OptimisticToggle(OptimisticToggle(fr, userId), userId);
      r.upvotes == fr.upvotes
      && (forall x :: x in r.upvotedBy <==> x in fr.upvotedBy)
      && (userId !in fr.upvotedBy ==> r == fr)
  {
    if userId !in fr.upvotedBy {
      Seqs.RemoveAllAppend(fr.upvotedBy, [userId], userId);
      Seqs.RemoveAllAbsent(fr.upvotedBy, userId);
    }
  }

  /** The optimistic toggle predicts the stored counter and voter list exactly: converting the
      request after the store's toggle gives the optimistic values. */
  lemma OptimisticToggleAgreesWithStore(id: string, d: Doc, userId: string, now: int, later: int)
    ensures var server := Api.Convert(Row(id, Api.Toggled(d, userId, now)), later);
      var predicted := OptimisticToggle(Api.Convert(Row(id, d), later), userId);
      server.upvotes == predicted.upvotes && server.upvotedBy == predicted.upvotedBy
  {
    Api.ToggledFields(d, userId, now);
  }

  /** The optimistic comment increment. */
  function OptimisticIncrement(fr: FeatureRequest): FeatureRequest {
    fr.(commentsCount := fr.commentsCount + 1)
  }

  /** The optimistic comment decrement, clamped at zero. */
  function OptimisticDecrement(fr: FeatureRequest): FeatureRequest {
    fr.(commentsCount := if fr.commentsCount - 1 < 0 then 0 else fr.commentsCount - 1)
  }

  /** The optimistic counter changes touch only the counter; the decrement never goes below
      zero, and undoes an increment of a non-negative counter. */
  lemma OptimisticCountMeaning(fr: FeatureRequest)
    ensures OptimisticIncrement(fr).(commentsCount := fr.commentsCount) == fr
    ensures OptimisticDecrement(fr).(commentsCount := fr.commentsCount) == fr
    ensures OptimisticIncrement(fr).commentsCount == fr.commentsCount + 1
    ensures OptimisticDecrement(fr).commentsCount >= 0
    ensures fr.commentsCount > 0 ==> OptimisticDecrement(fr).commentsCount == fr.commentsCount - 1
    ensures fr.commentsCount >= 0 ==> OptimisticDecrement(OptimisticIncrement(fr)) == fr
  {
  }

  /** At zero the cached counter stays at 0 while the stored one goes to -1. */
  lemma OptimisticDecrementClampsWhereStoreDoesNot(id: string, d: Doc, now: int, later: int)
    requires CommentsCount in d && d[CommentsCount] == Num(0)
    ensures OptimisticDecrement(Api.Convert(Row(id, d), later)).commentsCount == 0
    ensures Api.Convert(Row(id, ApplyPayload(d, Api.CommentCountPayload(-1), now)), later).commentsCount == -1
  {
    Api.DecrementBelowZero(d, now);
  }

  // The mutation callbacks

  /** The entries after `onSettled`: the request's detail and every list are invalidated. */
  function Settled(entries: map<Key, Entry>, id: string): map<Key, Entry> {
    Invalidated(Invalidated(entries, Detail(id)), Lists())
  }

  /** `onSettled` invalidates exactly the request's detail and every list, and touches no data. */
  lemma SettledMeaning(entries: map<Key, Entry>, id: string)
    ensures var r := Settled(entries, id);
      r.Keys == entries.Keys
      && (forall k :: k in r ==> r[k].data == entries[k].data)
      && (forall k :: k in r ==> (r[k].stale <==> entries[k].stale || Matches(k, Detail(id)) || Matches(k, Lists())))
  {
  }

  /** The shared `onSettled` of the three optimistic mutations. */
  method OnSettled(client: QueryClient, id: string)
    modifies client
    ensures client.entries == Settled(old(client.entries), id)
  {
    client.InvalidateQueries(Detail(id));
    client.InvalidateQueries(Lists());
  }

  /** The cache change an optimistic mutation makes on a cached request: `update` applied to it,
      and nothing when the detail holds no request. */
  function Speculated(entries: map<Key, Entry>, id: string, update: FeatureRequest -> FeatureRequest): map<Key, Entry> {
    if Detail(id) in entries && entries[Detail(id)].data.FeatureRequestData? then
      entries[Detail(id) := Entry(FeatureRequestData(update(entries[Detail(id)].data.fr)), false)]
    else entries
  }

  /** `onMutate` of `useToggleUpvote`: snapshots the cached detail and toggles it optimistically. */
  method OnMutateToggle(client: QueryClient, id: string, userId: string) returns (previous: Option<CachedData>)
    modifies client
    ensures previous == old(client.GetQueryData(Detail(id)))
    ensures client.entries == Speculated(old(client.entries), id, ToggleBy(userId))
  {
    previous := client.GetQueryData(Detail(id));
    if previous.Some? && previous.value.FeatureRequestData? {
      var fr := previous.value.fr;
      var hasUpvoted := userId in fr.upvotedBy;
      var newUpvotes := if hasUpvoted then fr.upvotes - 1 else fr.upvotes + 1;
      var newUpvotedBy := if hasUpvoted then Seqs.RemoveAll(fr.upvotedBy, userId) else fr.upvotedBy + [userId];
      client.SetQueryData(Detail(id), FeatureRequestData(fr.(upvotes := newUpvotes, upvotedBy := newUpvotedBy)));
    }
  }

  /** `onMutate` of the comment-counter mutations. */
  method OnMutateCommentCount(client: QueryClient, id: string, increment: bool) returns (previous: Option<CachedData>)
    modifies client
    ensures previous == old(client.GetQueryData(Detail(id)))
    ensures client.entries == Speculated(old(client.entries), id, if increment then OptimisticIncrement else OptimisticDecrement)
  {
    previous := client.GetQueryData(Detail(id));
    if previous.Some? && previous.value.FeatureRequestData? {
      var fr := previous.value.fr;
      if increment {
        client.SetQueryData(Detail(id), FeatureRequestData(fr.(commentsCount := fr.commentsCount + 1)));
      } else {
        var lowered := if fr.commentsCount - 1 < 0 then 0 else fr.commentsCount - 1;
        client.SetQueryData(Detail(id), FeatureRequestData(fr.(commentsCount := lowered)));
      }
    }
  }

  /** The cache after a whole optimistic mutation: the speculative change, rolled back from its
      snapshot when the mutation `failed` and the snapshot is truthy, then settled. */
  function AfterMutation(entries: map<Key, Entry>, id: string, update: FeatureRequest -> FeatureRequest, failed: bool): map<Key, Entry> {
    var previous := if Detail(id) in entries then Some(entries[Detail(id)].data) else None;
    var s := Speculated(entries, id, update);
    Settled(if failed && Truthy(previous) then s[Detail(id) := Entry(previous.value, false)] else s, id)
  }

  /** A failed mutation leaves every entry's data as it was before the optimistic step; only the
      staleness of the settled keys changes. */
  lemma RollbackRestoresData(entries: map<Key, Entry>, id: string, update: FeatureRequest -> FeatureRequest)
    ensures var r := AfterMutation(entries, id, update, true);
      r.Keys == entries.Keys && forall k :: k in r ==> r[k].data == entries[k].data
  {
  }

  /** The whole `useToggleUpvote` mutation: the optimistic step, the store's toggle (which may also
      fail for reasons outside the model, `fails`), the rollback on error and the invalidation. */
  method ToggleUpvoteMutation(db: Db, client: QueryClient, id: string, userId: string, now: int, fails: bool)
    returns (o: Outcome)
    requires db.Valid()
    modifies db`featureRequests, client
    ensures db.Valid()
    ensures fails ==> o.Failed? && db.featureRequests == old(db.featureRequests)
    ensures !fails ==> (o.Failed? <==> id !in old(db.featureRequests.docs))
    ensures o.Failed? ==> db.featureRequests == old(db.featureRequests)
    ensures o.Done? ==> db.featureRequests.docs == old(db.featureRequests.docs)[id := Api.Toggled(old(db.featureRequests.docs)[id], userId, now)]
    ensures client.entries == AfterMutation(old(client.entries), id, ToggleBy(userId), o.Failed?)
  {
    var previous := OnMutateToggle(client, id, userId);
    if fails {
      o := Failed("Failed to update vote");
    } else {
      o := Api.ToggleUpvote(db, id, userId, now);
    }
    if o.Failed? {
      client.Restore(Detail(id), previous);
    }
    OnSettled(client, id);
  }

  /** The whole `useIncrementCommentCount` or `useDecrementCommentCount` mutation. */
  method CommentCountMutation(db: Db, client: QueryClient, id: string, increment: bool, now: int, fails: bool)
    returns (o: Outcome)
    requires db.Valid()
    modifies db`featureRequests, client
    ensures db.Valid()
    ensures fails ==> o.Failed?
    ensures !fails ==> (o.Failed? <==> id !in old(db.featureRequests.docs))
    ensures o.Failed? ==> db.featureRequests == old(db.featureRequests)
    ensures o.Done? ==> (db.featureRequests.docs
         == old(db.featureRequests.docs)[id := ApplyPayload(old(db.featureRequests.docs)[id], Api.CommentCountPayload(if increment then 1 else -1), now)])
    ensures db.featureRequests.order == old(db.featureRequests.order)
    ensures client.entries == AfterMutation(old(client.entries), id, if increment then OptimisticIncrement else OptimisticDecrement, o.Failed?)
  {
    var previous := OnMutateCommentCount(client, id, increment);
    if fails {
      o := Failed("Failed to update the comment count");
    } else if increment {
      o := Api.IncrementCommentCount(db, id, now);
    } else {
      o := Api.DecrementCommentCount(db, id, now);
    }
    if o.Failed? {
      client.Restore(Detail(id), previous);
    }
    OnSettled(client, id);
  }

  /** `getNextPageParam`: the page's cursor when it has more, otherwise none. */
  function NextPageParam(page: Api.FeatureRequestPage): Option<Row> {
    if page.hasMore then page.lastDoc else None
  }

  /** For a list page, the next page parameter is the page's last row exactly when the page is
      full, and there is none otherwise. */
  lemma NextPageParamOfListPage(c: Collection, p: FeatureRequestsQuery, cursor: Option<Row>, page: Api.FeatureRequestPage)
    requires c.Valid()
    requires var rows := Api.PageRows(c, p, cursor);
      (page.hasMore <==> |rows| == Api.PageSize(p))
      && page.lastDoc == (if rows == [] then None else Some(rows[|rows| - 1]))
    ensures var rows := Api.PageRows(c, p, cursor);
      (NextPageParam(page).Some? <==> |rows| == Api.PageSize(p))
      && (NextPageParam(page).Some? ==> NextPageParam(page).value == rows[|rows| - 1])
  {
  }
}
