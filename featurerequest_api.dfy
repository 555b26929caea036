/** The feature-request data operations: the converter from stored documents,
    create/get/update/delete, the upvote toggle, the list query built from
    filters and sort, cursor paging, client-side search, and the denormalised
    comment counter. */
module FeatureRequestApi {

  import opened Wrappers
  import Seqs
  import Text
  import opened Documents
  import opened Ordering
  import opened Store
  import opened Types

  /** `convertFirestoreDoc`: every field read with its default, timestamps converted to times. */
  function Convert(r: Row, now: int): FeatureRequest {
    var d := r.data;
    FeatureRequest(
      r.id,
      TextOr(d, Title, ""),
      TextOr(d, Description, ""),
      TextOr(d, Status, "Open"),
      NumberOr(d, Upvotes),
      ListOr(d, UpvotedBy),
      ListOr(d, Labels),
      TextOr(d, AuthorId, ""),
      TextOr(d, AuthorName, ""),
      TextOr(d, AuthorEmail, ""),
      TimeOr(d, CreatedAt, now),
      TimeOr(d, UpdatedAt, now),
      NumberOr(d, CommentsCount))
  }

  /** Missing fields convert to their defaults: empty texts, status "Open", no votes, no labels,
      no comments and the current time. */
  lemma ConvertDefaults(r: Row, now: int)
    ensures var fr := Convert(r, now);
      fr.id == r.id
      && (Title !in r.data ==> fr.title == "")
      && (Description !in r.data ==> fr.description == "")
      && (Status !in r.data ==> fr.status == "Open")
      && (Upvotes !in r.data ==> fr.upvotes == 0)
      && (UpvotedBy !in r.data ==> fr.upvotedBy == [])
      && (Labels !in r.data ==> fr.labels == [])
      && (CommentsCount !in r.data ==> fr.commentsCount == 0)
      && (CreatedAt !in r.data ==> fr.createdAt == now)
  {
  }

  /** A document with no fields converts to the all-defaults request. */
  lemma ConvertEmpty(id: string, now: int)
    ensures Convert(Row(id, map[]), now)
         == FeatureRequest(id, "", "", "Open", 0, [], [], "", "", "", now, now, 0)
  {
  }

  /** The document `createFeatureRequest` writes: the input data, then the forced initial fields. */
  function CreatePayload(data: CreateFeatureRequestData, authorId: string, authorName: string, authorEmail: string): Payload {
    map[
      Title := Put(Str(data.title)),
      Description := Put(Str(data.description)),
      Status := Put(Str("Open")),
      Upvotes := Put(Num(0)),
      UpvotedBy := Put(Strs([])),
      Labels := Put(Strs(data.labels.GetOr([]))),
      AuthorId := Put(Str(authorId)),
      AuthorName := Put(Str(authorName)),
      AuthorEmail := Put(Str(authorEmail)),
      CommentsCount := Put(Num(0)),
      CreatedAt := ServerTimestamp,
      UpdatedAt := ServerTimestamp]
  }

  /** A created request reads back with the given title, description, labels (or none) and author,
      status "Open", no upvotes, no comments, and both timestamps at the creation time. */
  lemma CreatedReadsBack(id: string, data: CreateFeatureRequestData, authorId: string, authorName: string,
                         authorEmail: string, now: int, later: int)
    ensures Convert(Row(id, Written(CreatePayload(data, authorId, authorName, authorEmail), now)), later)
         == FeatureRequest(id, data.title, data.description, "Open", 0, [], data.labels.GetOr([]),
                           authorId, authorName, authorEmail, now, now, 0)
  {
  }

  /** `createFeatureRequest`: stores the new request under a fresh id and returns the id. */
  method CreateFeatureRequest(db: Db, data: CreateFeatureRequestData, authorId: string, authorName: string,
                              authorEmail: string, now: int) returns (id: string)
    requires db.Valid()
    modifies db`featureRequests
    ensures db.Valid()
    ensures id !in old(db.featureRequests.docs)
    ensures db.featureRequests.docs == old(db.featureRequests.docs)[id := Written(CreatePayload(data, authorId, authorName, authorEmail), now)]
    ensures db.featureRequests.order == old(db.featureRequests.order) + [id]
  {
    var added := AddDoc(db.featureRequests, CreatePayload(data, authorId, authorName, authorEmail), now);
    id := added.0;
    db.featureRequests := added.1;
  }

  /** `getFeatureRequest`: the converted document, or `null` when there is none. */
  function GetFeatureRequest(db: Db, id: string, now: int): (r: Option<FeatureRequest>)
    reads db
    ensures r.Some? <==> id in db.featureRequests.docs
    ensures r.Some? ==> r.value.id == id
  {
    match GetDoc(db.featureRequests, id)
    case Some(d) => Some(Convert(Row(id, d), now))
    case None => None
  }

  /** The entry `updateFeatureRequest` sends for field `f`, if any: a given field's new value,
      and the update time. */
  function UpdateEntry(u: UpdateFeatureRequestData, f: Field): Option<FieldOp> {
    if f == Title then (if u.title.Some? then Some(Put(Str(u.title.value))) else None)
    else if f == Description then (if u.description.Some? then Some(Put(Str(u.description.value))) else None)
    else if f == Status then (if u.status.Some? then Some(Put(Str(u.status.value))) else None)
    else if f == Labels then (if u.labels.Some? then Some(Put(Strs(u.labels.value))) else None)
    else if f == UpdatedAt then Some(ServerTimestamp)
    else None
  }

  /** The fields `updateFeatureRequest` sends: the given ones and the update time. */
  function UpdatePayload(u: UpdateFeatureRequestData): (p: Payload)
    ensures p.Keys <= {Title, Description, Status, Labels, UpdatedAt}
    ensures forall f :: f in p <==> UpdateEntry(u, f).Some?
    ensures forall f :: f in p ==> p[f] == UpdateEntry(u, f).value
  {
    map f | f in {Title, Description, Status, Labels, UpdatedAt} && UpdateEntry(u, f).Some? :: UpdateEntry(u, f).value
  }

  /** Field `f` after an update: the entry's new value when the update sends one, else as before. */
  lemma UpdatedField(d: Doc, u: UpdateFeatureRequestData, now: int, f: Field)
    ensures var r := ApplyPayload(d, UpdatePayload(u), now);
      (UpdateEntry(u, f).Some? ==> f in r && r[f] == ApplyOp(if f in d then Some(d[f]) else None, UpdateEntry(u, f).value, now))
      && (UpdateEntry(u, f).None? ==> (f in r <==> f in d) && (f in d ==> r[f] == d[f]))
  {
  }

  /** An update keeps every field it was not given and stamps the update time. */
  lemma UpdateKeepsOtherFields(d: Doc, u: UpdateFeatureRequestData, now: int)
    ensures var r := ApplyPayload(d, UpdatePayload(u), now);
      (forall f :: f in d && f !in {Title, Description, Status, Labels, UpdatedAt} ==> f in r && r[f] == d[f])
      && r[UpdatedAt] == Time(now)
  {
  }

  /** A text field after an update that sends `given` for it, read as `data.f || fallback`. */
  function UpdatedText(d: Doc, f: Field, given: Option<string>, fallback: string): string {
    if given.Some? && given.value != "" then given.value
    else if given.Some? then fallback
    else TextOr(d, f, fallback)
  }

  lemma UpdatedTextField(d: Doc, u: UpdateFeatureRequestData, now: int, f: Field, given: Option<string>, fallback: string)
    requires UpdateEntry(u, f) == if given.Some? then Some(Put(Str(given.value))) else None
    ensures TextOr(ApplyPayload(d, UpdatePayload(u), now), f, fallback) == UpdatedText(d, f, given, fallback)
  {
    UpdatedField(d, u, now, f);
  }

  /** A given non-empty title or description reads back as given (an empty one as ""), and one
      not given reads back as before. */
  lemma UpdateReadsBackText(id: string, d: Doc, u: UpdateFeatureRequestData, now: int, later: int)
    ensures var before := Convert(Row(id, d), later);
      var after := Convert(Row(id, ApplyPayload(d, UpdatePayload(u), now)), later);
      after.title == (if u.title.Some? && u.title.value != "" then u.title.value else if u.title.Some? then "" else before.title)
      && after.description == (if u.description.Some? && u.description.value != "" then u.description.value
                               else if u.description.Some? then "" else before.description)
  {
    UpdatedTextField(d, u, now, Title, u.title, "");
    UpdatedTextField(d, u, now, Description, u.description, "");
  }

  /** A given non-empty status reads back as given (an empty one as "Open"), given labels read
      back as given, fields not given read back as before, and the update time is stamped. */
  lemma UpdateReadsBackStatusLabels(id: string, d: Doc, u: UpdateFeatureRequestData, now: int, later: int)
    ensures var before := Convert(Row(id, d), later);
      var after := Convert(Row(id, ApplyPayload(d, UpdatePayload(u), now)), later);
      after.status == (if u.status.Some? && u.status.value != "" then u.status.value else if u.status.Some? then "Open" else before.status)
      && after.labels == (if u.labels.Some? then u.labels.value else before.labels)
      && after.updatedAt == now
  {
    var r := ApplyPayload(d, UpdatePayload(u), now);
    UpdatedTextField(d, u, now, Status, u.status, "Open");
    UpdatedField(d, u, now, Labels);
    UpdatedField(d, u, now, UpdatedAt);
    assert ListOr(r, Labels) == (if u.labels.Some? then u.labels.value else ListOr(d, Labels));
    assert TimeOr(r, UpdatedAt, later) == now;
  }

  /** `updateFeatureRequest`: fails when the request does not exist. */
  method UpdateFeatureRequest(db: Db, id: string, u: UpdateFeatureRequestData, now: int) returns (o: Outcome)
    requires db.Valid()
    modifies db`featureRequests
    ensures db.Valid()
    ensures o.Done? <==> id in old(db.featureRequests.docs)
    ensures o.Done? ==> db.featureRequests.docs == old(db.featureRequests.docs)[id := ApplyPayload(old(db.featureRequests.docs)[id], UpdatePayload(u), now)]
    ensures db.featureRequests.order == old(db.featureRequests.order)
    ensures o.Failed? ==> db.featureRequests == old(db.featureRequests)
  {
    var res := UpdateDoc(db.featureRequests, id, UpdatePayload(u), now);
    match res
    case Ok(c) =>
      db.featureRequests := c;
      o := Done;
    case Err(m) =>
      o := Failed(m);
  }

  /** `deleteFeatureRequest`: removes the request; its comments stay where they are. */
  method DeleteFeatureRequest(db: Db, id: string)
    requires db.Valid()
    modifies db`featureRequests
    ensures db.Valid()
    ensures db.featureRequests.docs == old(db.featureRequests.docs) - {id}
  {
    db.featureRequests := DeleteDoc(db.featureRequests, id);
  }

  /** The user has upvoted the stored request. */
  predicate HasUpvoted(d: Doc, userId: string) {
    userId in ListOr(d, UpvotedBy)
  }

  /** The update `toggleUpvote` sends for a request in state `d`. */
  function ToggleUpvotePayload(d: Doc, userId: string): Payload {
    if HasUpvoted(d, userId) then
      map[Upvotes := Increment(-1), UpvotedBy := ArrayRemove(userId), UpdatedAt := ServerTimestamp]
    else
      map[Upvotes := Increment(1), UpvotedBy := ArrayUnion(userId), UpdatedAt := ServerTimestamp]
  }

  /** The request after `toggleUpvote` has sent its update. */
  function Toggled(d: Doc, userId: string, now: int): Doc {
    ApplyPayload(d, ToggleUpvotePayload(d, userId), now)
  }

  /** A toggle moves the counter by one (from 0 when there is none), removes the user from the
      voters or appends them, and stamps the update time. */
  lemma ToggledFields(d: Doc, userId: string, now: int)
    ensures var r := Toggled(d, userId, now);
      Upvotes in r && UpvotedBy in r && UpdatedAt in r
      && r[Upvotes] == Num(NumberOr(d, Upvotes) + (if HasUpvoted(d, userId) then -1 else 1))
      && r[UpvotedBy] == Strs(if HasUpvoted(d, userId) then Seqs.RemoveAll(ListOr(d, UpvotedBy), userId)
                              else ListOr(d, UpvotedBy) + [userId])
      && r[UpdatedAt] == Time(now)
  {
    var p := ToggleUpvotePayload(d, userId);
    assert Upvotes in p && UpvotedBy in p && UpdatedAt in p && p[UpdatedAt] == ServerTimestamp;
    if HasUpvoted(d, userId) {
      assert p[Upvotes] == Increment(-1) && p[UpvotedBy] == ArrayRemove(userId);
    } else {
      assert p[Upvotes] == Increment(1) && p[UpvotedBy] == ArrayUnion(userId);
    }
  }

  /** A toggle changes no field but `upvotes`, `upvotedBy` and `updatedAt`. */
  lemma ToggleKeepsOtherFields(d: Doc, userId: string, now: int)
    ensures var r := Toggled(d, userId, now);
      (forall f :: f != Upvotes && f != UpvotedBy && f != UpdatedAt ==> (f in r <==> f in d))
      && (forall f :: f in d && f != Upvotes && f != UpvotedBy && f != UpdatedAt ==> r[f] == d[f])
  {
  }

  /** A toggle flips the user's vote, moves the counter with it and leaves every other voter as is. */
  lemma ToggleFlipsVote(d: Doc, userId: string, now: int)
    ensures var r := Toggled(d, userId, now);
      (HasUpvoted(r, userId) <==> !HasUpvoted(d, userId))
      && NumberOr(r, Upvotes) == NumberOr(d, Upvotes) + (if HasUpvoted(d, userId) then -1 else 1)
      && (forall x :: x != userId ==> (x in ListOr(r, UpvotedBy) <==> x in ListOr(d, UpvotedBy)))
  {
    ToggledFields(d, userId, now);
  }

  /** Toggling twice restores the counter, restores the voters as a set, and restores the voter
      list exactly when the user had not voted. */
  lemma ToggleTwice(d: Doc, userId: string, now1: int, now2: int)
    ensures var r := Toggled(Toggled(d, userId, now1), userId, now2);
      NumberOr(r, Upvotes) == NumberOr(d, Upvotes)
      && (forall x :: x in ListOr(r, UpvotedBy) <==> x in ListOr(d, UpvotedBy))
      && (!HasUpvoted(d, userId) ==> ListOr(r, UpvotedBy) == ListOr(d, UpvotedBy))
  {
    var items := ListOr(d, UpvotedBy);
    var t1 := Toggled(d, userId, now1);
    ToggledFields(d, userId, now1);
    ToggledFields(t1, userId, now2);
    if !HasUpvoted(d, userId) {
      assert ListOr(t1, UpvotedBy) == items + [userId];
      Seqs.RemoveAllAppend(items, [userId], userId);
      Seqs.RemoveAllAbsent(items, userId);
    } else {
      assert ListOr(t1, UpvotedBy) == Seqs.RemoveAll(items, userId);
    }
  }

  /** A request is consistent when its counter equals the number of distinct voters. */
  predicate Consistent(d: Doc) {
    Upvotes in d && d[Upvotes].Num? && UpvotedBy in d && d[UpvotedBy].Strs?
    && Seqs.NoDups(d[UpvotedBy].items) && d[Upvotes].num == |d[UpvotedBy].items|
  }

  /** The toggle keeps the counter equal to the number of voters, without duplicates. */
  lemma ToggleKeepsConsistent(d: Doc, userId: string, now: int)
    requires Consistent(d)
    ensures Consistent(Toggled(d, userId, now))
  {
    var items := d[UpvotedBy].items;
    ToggledFields(d, userId, now);
    if HasUpvoted(d, userId) {
      Seqs.NoDupsCount(items, userId);
      Seqs.RemoveAllNoDups(items, userId);
    } else {
      Seqs.AppendNoDups(items, userId);
    }
  }

  /** `toggleUpvote`: fails with "Feature request not found" and writes nothing when the request
      does not exist; otherwise reads it and sends the toggle for the state it read. */
  method ToggleUpvote(db: Db, featureRequestId: string, userId: string, now: int) returns (o: Outcome)
    requires db.Valid()
    modifies db`featureRequests
    ensures db.Valid()
    ensures o.Failed? <==> featureRequestId !in old(db.featureRequests.docs)
    ensures o.Failed? ==> o.message == "Feature request not found" && db.featureRequests == old(db.featureRequests)
    ensures o.Done? ==> (db.featureRequests.docs
         == old(db.featureRequests.docs)[featureRequestId := Toggled(old(db.featureRequests.docs)[featureRequestId], userId, now)])
    ensures db.featureRequests.order == old(db.featureRequests.order)
  {
    var snap := GetDoc(db.featureRequests, featureRequestId);
    if snap.None? {
      return Failed("Feature request not found");
    }
    var data := snap.value;
    var hasUpvoted := userId in ListOr(data, UpvotedBy);
    var payload: Payload;
    if hasUpvoted {
      payload := map[Upvotes := Increment(-1), UpvotedBy := ArrayRemove(userId), UpdatedAt := ServerTimestamp];
    } else {
      payload := map[Upvotes := Increment(1), UpvotedBy := ArrayUnion(userId), UpdatedAt := ServerTimestamp];
    }
    var res := UpdateDoc(db.featureRequests, featureRequestId, payload, now);
    db.featureRequests := res.value;
    o := Done;
  }

  function DirectionOf(d: SortDirection): Direction {
    match d
    case Ascending => Asc
    case Descending => Desc
  }

  /** The query `buildQuery` builds (without cursor). */
  function QueryOf(p: FeatureRequestsQuery): Query {
    var status := if p.filters.Some? && p.filters.value.status.Some? && p.filters.value.status.value != ""
                  then [FieldEquals(Status, Str(p.filters.value.status.value))] else [];
    var labels := if p.filters.Some? && p.filters.value.labels.Some? && |p.filters.value.labels.value| > 0
                  then [ArrayContainsAny(Labels, p.filters.value.labels.value)] else [];
    var order := if p.sort.Some? && p.sort.value.field == SortByVotes then OrderBy(Upvotes, DirectionOf(p.sort.value.direction))
                 else OrderBy(CreatedAt, if p.sort.Some? then DirectionOf(p.sort.value.direction) else Desc);
    var lim := if p.limit.Some? && p.limit.value > 0 then p.limit else None;
    Query(status + labels, Some(order), lim, None)
  }

  /** `buildQuery`, step by step. */
  method BuildQuery(p: FeatureRequestsQuery) returns (q: Query)
    ensures q == QueryOf(p)
  {
    var wheres: seq<Where> := [];
    if p.filters.Some? && p.filters.value.status.Some? && p.filters.value.status.value != "" {
      wheres := wheres + [FieldEquals(Status, Str(p.filters.value.status.value))];
    }
    if p.filters.Some? && p.filters.value.labels.Some? && |p.filters.value.labels.value| > 0 {
      wheres := wheres + [ArrayContainsAny(Labels, p.filters.value.labels.value)];
    }
    var order: OrderBy;
    if p.sort.Some? && p.sort.value.field == SortByVotes {
      order := OrderBy(Upvotes, DirectionOf(p.sort.value.direction));
    } else {
      order := OrderBy(CreatedAt, if p.sort.Some? then DirectionOf(p.sort.value.direction) else Desc);
    }
    var lim: Option<nat> := None;
    if p.limit.Some? && p.limit.value > 0 {
      lim := p.limit;
    }
    q := Query(wheres, Some(order), lim, None);
  }

  /** The list query filters by status only when a status is given, by "contains any" on the
      labels only when the label list is non-empty, and on nothing else. */
  lemma QueryFilters(p: FeatureRequestsQuery)
    ensures var q := QueryOf(p);
      ((exists s :: FieldEquals(Status, Str(s)) in q.wheres)
        <==> p.filters.Some? && p.filters.value.status.Some? && p.filters.value.status.value != "")
      && ((exists ls :: ArrayContainsAny(Labels, ls) in q.wheres)
        <==> p.filters.Some? && p.filters.value.labels.Some? && |p.filters.value.labels.value| > 0)
      && (forall w :: w in q.wheres ==> w.field == Status || w.field == Labels)
  {
  }

  /** The list query is ordered by upvotes for "votes" and by creation time otherwise, descending
      unless a direction is given, limited only by a non-zero limit, and starts at the beginning. */
  lemma QueryOrderAndLimit(p: FeatureRequestsQuery)
    ensures var q := QueryOf(p);
      q.orderBy.Some? && q.orderBy.value.field == (if p.sort.Some? && p.sort.value.field == SortByVotes then Upvotes else CreatedAt)
      && (p.sort.None? ==> q.orderBy.value.dir == Desc)
      && (p.sort.Some? ==> q.orderBy.value.dir == DirectionOf(p.sort.value.direction))
      && (q.limit.Some? <==> p.limit.Some? && p.limit.value > 0)
      && (q.limit.Some? ==> q.limit == p.limit)
      && q.startAfter.None?
  {
  }

  /** The `statuses`, `search` and `page` parameters never reach the query. */
  lemma QueryIgnoresStatusesSearchAndPage(p: FeatureRequestsQuery, statuses: Option<seq<string>>, search: Option<string>, page: Option<int>)
    requires p.filters.Some?
    ensures QueryOf(p.(filters := Some(p.filters.value.(statuses := statuses, search := search)), page := page)) == QueryOf(p)
  {
  }

  /** The page size `hasMore` compares with: the limit, or 10. */
  function PageSize(p: FeatureRequestsQuery): nat {
    if p.limit.Some? && p.limit.value > 0 then p.limit.value else 10
  }

  /** A page of feature requests and the cursor for the next one. */
  datatype FeatureRequestPage = FeatureRequestPage(featureRequests: seq<FeatureRequest>, hasMore: bool, lastDoc: Option<Row>)

  /** The rows a list query with an optional cursor returns. */
  function PageRows(c: Collection, p: FeatureRequestsQuery, cursor: Option<Row>): seq<Row>
    requires c.Valid()
  {
    Run(c, QueryOf(p).(startAfter := cursor))
  }

  /** `getFeatureRequestsWithCursor`: the converted rows after the cursor, `hasMore` when the page
      is full, and the last row as the next cursor. */
  method GetFeatureRequestsWithCursor(db: Db, p: FeatureRequestsQuery, lastDoc: Option<Row>, now: int)
    returns (page: FeatureRequestPage)
    requires db.Valid()
    ensures var rows := PageRows(db.featureRequests, p, lastDoc);
      |page.featureRequests| == |rows|
      && (forall i :: 0 <= i < |rows| ==> page.featureRequests[i] == Convert(rows[i], now))
      && (page.hasMore <==> |rows| == PageSize(p))
      && page.lastDoc == (if rows == [] then None else Some(rows[|rows| - 1]))
  {
    var q := BuildQuery(p);
    if lastDoc.Some? {
      q := q.(startAfter := lastDoc);
    }
    assert q == QueryOf(p).(startAfter := lastDoc);
    var rows := Run(db.featureRequests, q);
    assert rows == PageRows(db.featureRequests, p, lastDoc);
    var items := ConvertRows(rows, now);
    var hasMore := |rows| == PageSize(p);
    var newLastDoc := if rows == [] then None else Some(rows[|rows| - 1]);
    page := FeatureRequestPage(items, hasMore, newLastDoc);
  }

  /** The `forEach` that converts each returned document, in order. */
  method ConvertRows(rows: seq<Row>, now: int) returns (items: seq<FeatureRequest>)
    ensures |items| == |rows|
    ensures forall k :: 0 <= k < |rows| ==> items[k] == Convert(rows[k], now)
  {
    items := [];
    var i := 0;
    while i < |rows|
      invariant 0 <= i <= |rows|
      invariant |items| == i
      invariant forall k :: 0 <= k < i ==> items[k] == Convert(rows[k], now)
    {
      items := items + [Convert(rows[i], now)];
      i := i + 1;
    }
  }

  /** `getFeatureRequests`: the first page, as the cursor variant without a cursor. */
  method GetFeatureRequests(db: Db, p: FeatureRequestsQuery, now: int) returns (page: FeatureRequestPage)
    requires db.Valid()
    ensures var rows := PageRows(db.featureRequests, p, None);
      |page.featureRequests| == |rows|
      && (forall i :: 0 <= i < |rows| ==> page.featureRequests[i] == Convert(rows[i], now))
      && (page.hasMore <==> |rows| == PageSize(p))
      && page.lastDoc == (if rows == [] then None else Some(rows[|rows| - 1]))
  {
    page := GetFeatureRequestsWithCursor(db, p, None, now);
  }

  /** A page never exceeds its size, so `hasMore` means the page is full. */
  lemma PageBounded(c: Collection, p: FeatureRequestsQuery, cursor: Option<Row>)
    requires c.Valid() && p.limit.Some? && p.limit.value > 0
    ensures |PageRows(c, p, cursor)| <= PageSize(p)
  {
  }

  /** Without a limit the query returns every selected request, so `hasMore` holds exactly when
      there happen to be 10 of them, even though no further page exists. */
  lemma UnlimitedPageHoldsAll(c: Collection, p: FeatureRequestsQuery)
    requires c.Valid() && (p.limit.None? || p.limit == Some(0))
    ensures PageRows(c, p, None) == Ordered(c, QueryOf(p))
    ensures PageSize(p) == 10
  {
    FirstPage(c, QueryOf(p));
  }

  /** What the search decides for one stored request: `Some(b)` whether it matches the lower-cased
      term, `None` when reading its title (or, if the title does not match, its description)
      throws because the field is not text. */
  function SearchMatch(d: Doc, needle: string): Option<bool> {
    if !(Title in d && d[Title].Str?) then None
    else if Text.Includes(Text.ToLower(d[Title].str), needle) then Some(true)
    else if !(Description in d && d[Description].Str?) then None
    else Some(Text.Includes(Text.ToLower(d[Description].str), needle))
  }

  /** The search over rows in order: the matching rows converted, or the error of the first row
      whose fields cannot be read. */
  function SearchRows(rows: seq<Row>, needle: string, now: int): Result<seq<FeatureRequest>> {
    if rows == [] then Ok([])
    else
      match SearchRows(rows[..|rows| - 1], needle, now)
      case Err(m) => Err(m)
      case Ok(found) =>
        var last := rows[|rows| - 1];
        match SearchMatch(last.data, needle)
        case None => Err("Cannot read the title or description of " + last.id)
        case Some(b) => if b then Ok(found + [Convert(last, now)]) else Ok(found)
  }

  /** The search fails exactly when some row has a non-text title, or a title without the term
      and a non-text description (the `||` never reads the description of a title match). */
  lemma {:induction false} SearchFailsOnUnreadable(rows: seq<Row>, needle: string, now: int)
    ensures SearchRows(rows, needle, now).Err? <==> exists i :: 0 <= i < |rows| && SearchMatch(rows[i].data, needle).None?
  {
    if rows != [] {
      var init := rows[..|rows| - 1];
      SearchFailsOnUnreadable(init, needle, now);
      assert forall i :: 0 <= i < |init| ==> init[i] == rows[i];
    }
  }

  /** A search that succeeds keeps no more rows than it read, each a converted matching row. */
  lemma {:induction false} SearchKeepsOnlyMatches(rows: seq<Row>, needle: string, now: int)
    ensures var r := SearchRows(rows, needle, now);
      r.Ok? ==>
        |r.value| <= |rows|
        && forall x :: x in r.value ==>
             exists i :: 0 <= i < |rows| && x == Convert(rows[i], now) && SearchMatch(rows[i].data, needle) == Some(true)
  {
    if rows != [] {
      var init := rows[..|rows| - 1];
      SearchKeepsOnlyMatches(init, needle, now);
      assert forall i :: 0 <= i < |init| ==> init[i] == rows[i];
    }
  }

  /** A search that succeeds keeps every matching row, converted. */
  lemma {:induction false} SearchKeepsAllMatches(rows: seq<Row>, needle: string, now: int)
    ensures var r := SearchRows(rows, needle, now);
      r.Ok? ==> forall i :: 0 <= i < |rows| && SearchMatch(rows[i].data, needle) == Some(true) ==> Convert(rows[i], now) in r.value
  {
    if rows != [] {
      var init := rows[..|rows| - 1];
      SearchKeepsAllMatches(init, needle, now);
      assert forall i :: 0 <= i < |init| ==> init[i] == rows[i];
    }
  }

  /** Once a prefix of the rows makes the search throw, the whole search throws the same error. */
  lemma {:induction false} SearchErrExtends(rows: seq<Row>, i: nat, needle: string, now: int)
    requires i <= |rows| && SearchRows(rows[..i], needle, now).Err?
    ensures SearchRows(rows, needle, now) == SearchRows(rows[..i], needle, now)
    decreases |rows| - i
  {
    if i < |rows| {
      var init := rows[..|rows| - 1];
      assert init[..i] == rows[..i];
      SearchErrExtends(init, i, needle, now);
    } else {
      assert rows[..i] == rows;
    }
  }

  /** `searchFeatureRequests`: reads at most 100 requests in the list order and keeps, in that order,
      those whose lower-cased title or description contains the lower-cased term. */
  method SearchFeatureRequests(db: Db, searchTerm: string, p: FeatureRequestsQuery, now: int)
    returns (r: Result<seq<FeatureRequest>>)
    requires db.Valid() && p.filters.None?
    ensures r == SearchRows(PageRows(db.featureRequests, p.(limit := Some(100)), None), Text.ToLower(searchTerm), now)
    ensures r.Ok? ==> |r.value| <= 100
  {
    var q := BuildQuery(p.(limit := Some(100)));
    var rows := Run(db.featureRequests, q);
    assert rows == PageRows(db.featureRequests, p.(limit := Some(100)), None);
    r := SearchInRows(rows, Text.ToLower(searchTerm), now);
    SearchKeepsOnlyMatches(rows, Text.ToLower(searchTerm), now);
    PageBounded(db.featureRequests, p.(limit := Some(100)), None);
  }

  /** The `forEach` of the search: stops with an error at the first unreadable row. */
  method SearchInRows(rows: seq<Row>, searchLower: string, now: int) returns (r: Result<seq<FeatureRequest>>)
    ensures r == SearchRows(rows, searchLower, now)
  {
    var found: seq<FeatureRequest> := [];
    var i := 0;
    while i < |rows|
      invariant 0 <= i <= |rows|
      invariant SearchRows(rows[..i], searchLower, now) == Ok(found)
    {
      var d := rows[i].data;
      assert rows[..i + 1][..i] == rows[..i];
      if !(Title in d && d[Title].Str?) {
        SearchErrExtends(rows, i + 1, searchLower, now);
        return Err("Cannot read the title or description of " + rows[i].id);
      }
      if Text.Includes(Text.ToLower(d[Title].str), searchLower) {
        found := found + [Convert(rows[i], now)];
      } else {
        if !(Description in d && d[Description].Str?) {
          SearchErrExtends(rows, i + 1, searchLower, now);
          return Err("Cannot read the title or description of " + rows[i].id);
        }
        if Text.Includes(Text.ToLower(d[Description].str), searchLower) {
          found := found + [Convert(rows[i], now)];
        }
      }
      i := i + 1;
    }
    assert rows[..|rows|] == rows;
    r := Ok(found);
  }

  /** Lower-casing after upper-casing is lower-casing. */
  lemma LowerOfUpper(s: string)
    ensures Text.ToLower(Text.ToUpper(s)) == Text.ToLower(s)
  {
  }

  /** The search does not depend on the case of the term. */
  lemma SearchIgnoresCase(rows: seq<Row>, term: string, now: int)
    ensures SearchRows(rows, Text.ToLower(Text.ToUpper(term)), now) == SearchRows(rows, Text.ToLower(term), now)
  {
    LowerOfUpper(term);
  }

  /** The update the comment-counter operations send. */
  function CommentCountPayload(delta: int): Payload {
    map[CommentsCount := Increment(delta), UpdatedAt := ServerTimestamp]
  }

  /** The counter moves by exactly `delta`, without a floor at 0; only it and `updatedAt` change. */
  lemma CommentCountChange(d: Doc, delta: int, now: int)
    ensures var r := ApplyPayload(d, CommentCountPayload(delta), now);
      NumberOr(r, CommentsCount) == NumberOr(d, CommentsCount) + delta
      && r[UpdatedAt] == Time(now)
      && (forall f :: f != CommentsCount && f != UpdatedAt ==> (f in r <==> f in d) && (f in d ==> r[f] == d[f]))
  {
  }

  /** Decrementing a zero counter stores -1. */
  lemma DecrementBelowZero(d: Doc, now: int)
    requires NumberOr(d, CommentsCount) == 0
    ensures ApplyPayload(d, CommentCountPayload(-1), now)[CommentsCount] == Num(-1)
  {
  }

  /** An increment followed by a decrement restores a numeric counter. */
  lemma IncrementThenDecrement(d: Doc, now1: int, now2: int)
    requires CommentsCount in d && d[CommentsCount].Num?
    ensures ApplyPayload(ApplyPayload(d, CommentCountPayload(1), now1), CommentCountPayload(-1), now2)[CommentsCount]
         == d[CommentsCount]
  {
  }

  /** `incrementCommentCount` / `decrementCommentCount` (delta 1 / -1): fails when the request does
      not exist. */
  method ChangeCommentCount(db: Db, featureRequestId: string, delta: int, now: int) returns (o: Outcome)
    requires db.Valid()
    modifies db`featureRequests
    ensures db.Valid()
    ensures o.Done? <==> featureRequestId in old(db.featureRequests.docs)
    ensures o.Done? ==> db.featureRequests.docs == old(db.featureRequests.docs)[featureRequestId :=
      ApplyPayload(old(db.featureRequests.docs)[featureRequestId], CommentCountPayload(delta), now)]
    ensures db.featureRequests.order == old(db.featureRequests.order)
    ensures o.Failed? ==> db.featureRequests == old(db.featureRequests)
  {
    var res := UpdateDoc(db.featureRequests, featureRequestId, CommentCountPayload(delta), now);
    match res
    case Ok(c) =>
      db.featureRequests := c;
      o := Done;
    case Err(m) =>
      o := Failed(m);
  }

  method IncrementCommentCount(db: Db, featureRequestId: string, now: int) returns (o: Outcome)
    requires db.Valid()
    modifies db`featureRequests
    ensures db.Valid()
    ensures o.Done? <==> featureRequestId in old(db.featureRequests.docs)
    ensures o.Done? ==> db.featureRequests.docs == old(db.featureRequests.docs)[featureRequestId :=
      ApplyPayload(old(db.featureRequests.docs)[featureRequestId], CommentCountPayload(1), now)]
    ensures db.featureRequests.order == old(db.featureRequests.order)
    ensures o.Failed? ==> db.featureRequests == old(db.featureRequests)
  {
    o := ChangeCommentCount(db, featureRequestId, 1, now);
  }

  method DecrementCommentCount(db: Db, featureRequestId: string, now: int) returns (o: Outcome)
    requires db.Valid()
    modifies db`featureRequests
    ensures db.Valid()
    ensures o.Done? <==> featureRequestId in old(db.featureRequests.docs)
    ensures o.Done? ==> db.featureRequests.docs == old(db.featureRequests.docs)[featureRequestId :=
      ApplyPayload(old(db.featureRequests.docs)[featureRequestId], CommentCountPayload(-1), now)]
    ensures db.featureRequests.order == old(db.featureRequests.order)
    ensures o.Failed? ==> db.featureRequests == old(db.featureRequests)
  {
    o := ChangeCommentCount(db, featureRequestId, -1, now);
  }
}
