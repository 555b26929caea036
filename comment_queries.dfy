/** The comment hooks: the comment query keys, and the create, update and delete mutations with
    their `onSuccess` callbacks, which pair a comment create or delete with one change to the
    parent request's counter before touching the comment entries of the cache. */
module CommentQueries {

  import opened Wrappers
  import opened Types
  import opened Documents
  import opened Store
  import opened QueryCache
  import Api = CommentApi
  import Requests = FeatureRequestQueries
  import RequestApi = FeatureRequestApi

  // `commentKeys`

  function All(): Key { [Word("comments")] }
  function Lists(): Key { All() + [Word("list")] }
  function List(p: CommentsQuery): Key { Lists() + [CommentParams(p)] }
  function Details(): Key { All() + [Word("detail")] }
  function Detail(id: string): Key { Details() + [Word(id)] }
  function Count(featureRequestId: string): Key { All() + [Word("count"), Word(featureRequestId)] }

  /** The filter `list({ featureRequestId })` the create and delete callbacks invalidate. */
  function ListsOf(featureRequestId: string): Key {
    List(CommentsQuery(featureRequestId, None, None))
  }

  /** The filter for one request's lists selects every list of that request, whatever its page
      size and page, and no list of another request, no detail and no count. */
  lemma ListsOfSelectsExactlyItsLists(featureRequestId: string, p: CommentsQuery, id: string, fid: string)
    ensures Matches(List(p), ListsOf(featureRequestId)) <==> p.featureRequestId == featureRequestId
    ensures !Matches(Detail(id), ListsOf(featureRequestId))
    ensures !Matches(Count(fid), ListsOf(featureRequestId))
  {
    assert List(p)[2] == CommentParams(p);
    assert Detail(id)[1] == Word("detail");
    assert Count(fid)[1] == Word("count");
  }

  /** `lists()` selects every list and no detail or count; `detail(id)` selects only that comment. */
  lemma ListsAndDetailSelect(p: CommentsQuery, id: string, other: string, fid: string)
    ensures Matches(List(p), Lists())
    ensures !Matches(Detail(id), Lists()) && !Matches(Count(fid), Lists())
    ensures Matches(Detail(other), Detail(id)) <==> other == id
  {
    assert Detail(other)[2] == Word(other);
    assert Detail(id)[1] == Word("detail");
    assert Count(fid)[1] == Word("count");
  }

  /** No comment filter selects a feature-request key, and no feature-request filter a comment key. */
  lemma KeySpacesDisjoint(filter: Key, k: Key)
    requires |filter| > 0 && filter[0] == Word("comments")
    requires |k| > 0 && k[0] == Word("featureRequests")
    ensures !Matches(k, filter) && !Matches(filter, k)
  {
  }

  /** The comment entries after a create: only the request's lists are invalidated. */
  function AfterCreate(entries: map<Key, Entry>, featureRequestId: string): map<Key, Entry> {
    Invalidated(entries, ListsOf(featureRequestId))
  }

  /** The comment entries after a delete: the comment's detail is gone and the request's lists
      are invalidated. */
  function AfterDelete(entries: map<Key, Entry>, id: string, featureRequestId: string): map<Key, Entry> {
    Invalidated(Removed(entries, Detail(id)), ListsOf(featureRequestId))
  }

  /** The comment entries after an update: the comment's detail and every list are invalidated. */
  function AfterUpdate(entries: map<Key, Entry>, id: string): map<Key, Entry> {
    Invalidated(Invalidated(entries, Detail(id)), Lists())
  }

  /** A delete removes exactly the comment's detail, marks the request's lists stale and keeps every
      other entry as it was. */
  lemma AfterDeleteMeaning(entries: map<Key, Entry>, id: string, featureRequestId: string)
    ensures var r := AfterDelete(entries, id, featureRequestId);
      (forall k :: k in r <==> k in entries && !Matches(k, Detail(id)))
      && (forall k :: k in r ==> r[k].data == entries[k].data)
      && (forall k :: k in r ==> (r[k].stale <==> entries[k].stale || Matches(k, ListsOf(featureRequestId))))
  {
  }

  /** Neither callback touches a feature-request entry. */
  lemma CommentCallbacksKeepRequestEntries(entries: map<Key, Entry>, id: string, featureRequestId: string, k: Key)
    requires |k| > 0 && k[0] == Word("featureRequests") && k in entries
    ensures k in AfterCreate(entries, featureRequestId) && AfterCreate(entries, featureRequestId)[k] == entries[k]
    ensures k in AfterDelete(entries, id, featureRequestId) && AfterDelete(entries, id, featureRequestId)[k] == entries[k]
    ensures k in AfterUpdate(entries, id) && AfterUpdate(entries, id)[k] == entries[k]
  {
    KeySpacesDisjoint(ListsOf(featureRequestId), k);
    KeySpacesDisjoint(Detail(id), k);
    KeySpacesDisjoint(Lists(), k);
  }

  /** The whole `useCreateComment` mutation. The comment is stored unless the write fails
      (`createFails`); only then does `onSuccess` run the counter mutation on the parent (which may
      fail, `counterFails`), and only when that succeeds are the parent's comment lists
      invalidated. */
  method CreateCommentMutation(db: Db, client: QueryClient, data: CreateCommentData, authorId: string, authorName: string,
                               authorEmail: string, authorPhotoURL: Option<string>, now: int,
                               createFails: bool, counterFails: bool)
    returns (o: Outcome, id: Option<string>)
    requires db.Valid()
    modifies db`comments, db`featureRequests, client
    ensures db.Valid()
    ensures createFails ==> (o.Failed? && id.None? && db.comments == old(db.comments)
      && db.featureRequests == old(db.featureRequests) && client.entries == old(client.entries))
    ensures !createFails ==> (id.Some? && id.value !in old(db.comments.docs)
      && db.comments.docs == old(db.comments.docs)[id.value := Written(Api.CreatePayload(data, authorId, authorName, authorEmail, authorPhotoURL), now)]
      && db.comments.order == old(db.comments.order) + [id.value])
    ensures !createFails ==> (o.Failed? <==> counterFails || data.featureRequestId !in old(db.featureRequests.docs))
    ensures o.Failed? ==> db.featureRequests == old(db.featureRequests)
    ensures o.Done? ==> db.featureRequests.docs == old(db.featureRequests.docs)[data.featureRequestId :=
      ApplyPayload(old(db.featureRequests.docs)[data.featureRequestId], RequestApi.CommentCountPayload(1), now)]
    ensures db.featureRequests.order == old(db.featureRequests.order)
    ensures !createFails ==>
      var counted := Requests.AfterMutation(old(client.entries), data.featureRequestId, Requests.OptimisticIncrement, o.Failed?);
      client.entries == if o.Done? then AfterCreate(counted, data.featureRequestId) else counted
  {
    if createFails {
      return Failed("Failed to add comment. Please try again."), None;
    }
    var newId := Api.CreateComment(db, data, authorId, authorName, authorEmail, authorPhotoURL, now);
    id := Some(newId);
    o := Requests.CommentCountMutation(db, client, data.featureRequestId, true, now, counterFails);
    if o.Done? {
      client.InvalidateQueries(ListsOf(data.featureRequestId));
    }
  }

  /** The whole `useUpdateComment` mutation: on success the comment's detail and every comment list
      are invalidated; no counter changes. */
  method UpdateCommentMutation(db: Db, client: QueryClient, id: string, updates: UpdateCommentData, now: int, fails: bool)
    returns (o: Outcome)
    requires db.Valid()
    modifies db`comments, client
    ensures db.Valid()
    ensures o.Done? <==> !fails && id in old(db.comments.docs)
    ensures o.Done? ==> db.comments.docs == old(db.comments.docs)[id := ApplyPayload(old(db.comments.docs)[id], Api.UpdatePayload(updates), now)]
    ensures o.Failed? ==> db.comments == old(db.comments)
    ensures db.featureRequests == old(db.featureRequests)
    ensures client.entries == if o.Done? then AfterUpdate(old(client.entries), id) else old(client.entries)
  {
    if fails {
      return Failed("Failed to update comment. Please try again.");
    }
    o := Api.UpdateComment(db, id, updates, now);
    if o.Done? {
      client.InvalidateQueries(Detail(id));
      client.InvalidateQueries(Lists());
    }
  }

  /** The whole `useDeleteComment` mutation. The comment is deleted unless the write fails
      (`deleteFails`); only then does `onSuccess` run the counter mutation on the given request,
      and only when that succeeds are the comment's detail removed and the request's lists
      invalidated. */
  method DeleteCommentMutation(db: Db, client: QueryClient, id: string, featureRequestId: string, now: int,
                               deleteFails: bool, counterFails: bool)
    returns (o: Outcome)
    requires db.Valid()
    modifies db`comments, db`featureRequests, client
    ensures db.Valid()
    ensures deleteFails ==> (o.Failed? && db.comments == old(db.comments)
      && db.featureRequests == old(db.featureRequests) && client.entries == old(client.entries))
    ensures !deleteFails ==> db.comments.docs == old(db.comments.docs) - {id}
    ensures !deleteFails ==> (o.Failed? <==> counterFails || featureRequestId !in old(db.featureRequests.docs))
    ensures o.Failed? ==> db.featureRequests == old(db.featureRequests)
    ensures o.Done? ==> db.featureRequests.docs == old(db.featureRequests.docs)[featureRequestId :=
      ApplyPayload(old(db.featureRequests.docs)[featureRequestId], RequestApi.CommentCountPayload(-1), now)]
    ensures db.featureRequests.order == old(db.featureRequests.order)
    ensures !deleteFails ==>
      var counted := Requests.AfterMutation(old(client.entries), featureRequestId, Requests.OptimisticDecrement, o.Failed?);
      client.entries == if o.Done? then AfterDelete(counted, id, featureRequestId) else counted
  {
    if deleteFails {
      return Failed("Failed to delete comment. Please try again.");
    }
    Api.DeleteComment(db, id);
    o := Requests.CommentCountMutation(db, client, featureRequestId, false, now, counterFails);
    if o.Done? {
      client.RemoveQueries(Detail(id));
      client.InvalidateQueries(ListsOf(featureRequestId));
    }
  }

  /** A comment created and then deleted with every call succeeding leaves its request's counter
      as it was, and changes no other field of the request but its update time. */
  lemma CreateThenDeleteKeepsCount(d: Doc, now1: int, now2: int)
    ensures var r := ApplyPayload(ApplyPayload(d, RequestApi.CommentCountPayload(1), now1), RequestApi.CommentCountPayload(-1), now2);
      NumberOr(r, CommentsCount) == NumberOr(d, CommentsCount)
      && r[UpdatedAt] == Time(now2)
      && (forall f :: f != CommentsCount && f != UpdatedAt ==> (f in r <==> f in d) && (f in d ==> r[f] == d[f]))
  {
    var once := ApplyPayload(d, RequestApi.CommentCountPayload(1), now1);
    RequestApi.CommentCountChange(d, 1, now1);
    RequestApi.CommentCountChange(once, -1, now2);
  }

  /** `getNextPageParam` of `useInfiniteComments`: the last row when there is more. */
  function NextPageParam(page: Api.CommentPage): Option<Row> {
    if page.hasMore then page.lastDoc else None
  }

  /** A next page is requested exactly after a full, non-empty page, starting after its last row. */
  lemma NextPageParamOfCommentPage(c: Collection, p: CommentsQuery, cursor: Option<Row>, page: Api.CommentPage, now: int)
    requires c.Valid()
    requires var rows := Api.CommentRows(c, p, cursor);
      page.lastDoc == (if rows == [] then None else Some(rows[|rows| - 1]))
      && (page.hasMore <==> |rows| == Api.PageLimit(p))
    requires Api.PageLimit(p) > 0
    ensures var rows := Api.CommentRows(c, p, cursor);
      NextPageParam(page).Some? <==> |rows| == Api.PageLimit(p)
    ensures var rows := Api.CommentRows(c, p, cursor);
      NextPageParam(page).Some? ==> NextPageParam(page) == Some(rows[|rows| - 1])
  {
  }

}
