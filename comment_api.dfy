/** The comment operations on the document store: conversion with defaults,
    create, read, update, delete, the pages of one request's comments (oldest
    first, 20 by default, after a cursor) and the comment count. */
module CommentApi {

  import opened Wrappers
  import opened Documents
  import opened Ordering
  import opened Store
  import opened Types

  /** `convertFirestoreCommentDoc`: every missing or empty text becomes "", and times follow the
      timestamp reading rules. */
  function Convert(r: Row, now: int): Comment {
    var d := r.data;
    Comment(
      r.id,
      TextOr(d, Content, ""),
      TextOr(d, FeatureRequestId, ""),
      TextOr(d, AuthorId, ""),
      TextOr(d, AuthorName, ""),
      TextOr(d, AuthorEmail, ""),
      TextOr(d, AuthorPhotoURL, ""),
      TimeOr(d, CreatedAt, now),
      TimeOr(d, UpdatedAt, now))
  }

  /** An empty document converts to empty texts stamped with the current time. */
  lemma ConvertEmpty(id: string, now: int)
    ensures Convert(Row(id, map[]), now) == Comment(id, "", "", "", "", "", "", now, now)
  {
  }

  /** The document `createComment` writes: the data, the author and both timestamps; a photo URL
      that is not given is not written. */
  function CreatePayload(data: CreateCommentData, authorId: string, authorName: string, authorEmail: string,
                         authorPhotoURL: Option<string>): Payload {
    var base := map[
      Content := Put(Str(data.content)),
      FeatureRequestId := Put(Str(data.featureRequestId)),
      AuthorId := Put(Str(authorId)),
      AuthorName := Put(Str(authorName)),
      AuthorEmail := Put(Str(authorEmail)),
      CreatedAt := ServerTimestamp,
      UpdatedAt := ServerTimestamp];
    if authorPhotoURL.Some? then base[AuthorPhotoURL := Put(Str(authorPhotoURL.value))] else base
  }

  /** A created comment reads back with its data, its author (photo URL "" when not given) and
      both timestamps at the creation time. */
  lemma CreatedReadsBack(id: string, data: CreateCommentData, authorId: string, authorName: string,
                         authorEmail: string, authorPhotoURL: Option<string>, now: int, later: int)
    ensures Convert(Row(id, Written(CreatePayload(data, authorId, authorName, authorEmail, authorPhotoURL), now)), later)
         == Comment(id, data.content, data.featureRequestId, authorId, authorName, authorEmail,
                    authorPhotoURL.GetOr(""), now, now)
  {
  }

  /** `createComment`: stores the comment under a fresh id; no feature request changes. */
  method CreateComment(db: Db, data: CreateCommentData, authorId: string, authorName: string, authorEmail: string,
                       authorPhotoURL: Option<string>, now: int) returns (id: string)
    requires db.Valid()
    modifies db`comments
    ensures db.Valid()
    ensures id !in old(db.comments.docs)
    ensures db.comments.docs == old(db.comments.docs)[id := Written(CreatePayload(data, authorId, authorName, authorEmail, authorPhotoURL), now)]
    ensures db.comments.order == old(db.comments.order) + [id]
    ensures db.featureRequests == old(db.featureRequests)
  {
    var added := AddDoc(db.comments, CreatePayload(data, authorId, authorName, authorEmail, authorPhotoURL), now);
    id := added.0;
    db.comments := added.1;
  }

  /** `getComment`: the converted comment, or `null` when there is none. */
  function GetComment(db: Db, id: string, now: int): (r: Option<Comment>)
    reads db
    ensures r.Some? <==> id in db.comments.docs
    ensures r.Some? ==> r.value.id == id
  {
    if id in db.comments.docs then Some(Convert(Row(id, db.comments.docs[id]), now)) else None
  }

  /** The update `updateComment` sends. */
  function UpdatePayload(u: UpdateCommentData): Payload {
    map[Content := Put(Str(u.content)), UpdatedAt := ServerTimestamp]
  }

  /** An update changes only the content and the update time. */
  lemma UpdateChangesOnlyContent(d: Doc, u: UpdateCommentData, now: int)
    ensures var r := ApplyPayload(d, UpdatePayload(u), now);
      r[Content] == Str(u.content) && r[UpdatedAt] == Time(now)
      && (forall f :: f != Content && f != UpdatedAt ==> (f in r <==> f in d) && (f in d ==> r[f] == d[f]))
  {
  }

  /** `updateComment`: fails when the comment does not exist. */
  method UpdateComment(db: Db, id: string, u: UpdateCommentData, now: int) returns (o: Outcome)
    requires db.Valid()
    modifies db`comments
    ensures db.Valid()
    ensures o.Done? <==> id in old(db.comments.docs)
    ensures o.Done? ==> db.comments.docs == old(db.comments.docs)[id := ApplyPayload(old(db.comments.docs)[id], UpdatePayload(u), now)]
    ensures o.Failed? ==> db.comments == old(db.comments)
    ensures db.featureRequests == old(db.featureRequests)
  {
    var res := UpdateDoc(db.comments, id, UpdatePayload(u), now);
    match res
    case Ok(c) =>
      db.comments := c;
      o := Done;
    case Err(m) =>
      o := Failed(m);
  }

  /** `deleteComment`: removes the comment if it exists; no feature request changes. */
  method DeleteComment(db: Db, id: string)
    requires db.Valid()
    modifies db`comments
    ensures db.Valid()
    ensures db.comments.docs == old(db.comments.docs) - {id}
    ensures db.featureRequests == old(db.featureRequests)
  {
    db.comments := DeleteDoc(db.comments, id);
  }

  /** The page size of a comment list: the given limit, or 20. */
  function PageLimit(p: CommentsQuery): nat {
    p.limit.GetOr(20)
  }

  /** One request's comments, oldest first, at most the page size, after the cursor. */
  function CommentsQueryOf(p: CommentsQuery, cursor: Option<Row>): Query {
    Query([FieldEquals(FeatureRequestId, Str(p.featureRequestId))], Some(OrderBy(CreatedAt, Asc)), Some(PageLimit(p)), cursor)
  }

  /** The rows a comment list with an optional cursor returns. */
  function CommentRows(c: Collection, p: CommentsQuery, cursor: Option<Row>): seq<Row>
    requires c.Valid()
  {
    Run(c, CommentsQueryOf(p, cursor))
  }

  /** Every row of a comment page is a stored comment of the request, and there are at most
      the page size of them. */
  lemma CommentRowsBelong(c: Collection, p: CommentsQuery, cursor: Option<Row>, now: int)
    requires c.Valid()
    ensures var rows := CommentRows(c, p, cursor);
      |rows| <= PageLimit(p)
      && forall i :: 0 <= i < |rows| ==>
        rows[i].id in c.docs && rows[i].data == c.docs[rows[i].id]
        && Convert(rows[i], now).featureRequestId == p.featureRequestId
  {
    var rows := CommentRows(c, p, cursor);
    forall i | 0 <= i < |rows|
      ensures Convert(rows[i], now).featureRequestId == p.featureRequestId
    {
      assert rows[i] in rows;
      SelectedBelongs(p, cursor, rows[i], now);
    }
  }

  /** A row the comment query selects carries the request's id. */
  lemma SelectedBelongs(p: CommentsQuery, cursor: Option<Row>, x: Row, now: int)
    requires Selects(CommentsQueryOf(p, cursor), x)
    ensures Convert(x, now).featureRequestId == p.featureRequestId
  {
    assert Holds(CommentsQueryOf(p, cursor).wheres[0], x.data);
  }

  /** Comments come oldest first: of two rows stamped with server times, the earlier one in the
      page was not created later; and every row comes after the cursor. */
  lemma CommentRowsOldestFirst(c: Collection, p: CommentsQuery, cursor: Option<Row>, now: int)
    requires c.Valid()
    ensures var rows := CommentRows(c, p, cursor);
      forall i, j :: 0 <= i < j < |rows| && CreatedAt in rows[i].data && CreatedAt in rows[j].data
        && rows[i].data[CreatedAt].Time? && rows[j].data[CreatedAt].Time?
        ==> Convert(rows[i], now).createdAt <= Convert(rows[j], now).createdAt
    ensures var rows := CommentRows(c, p, cursor);
      cursor.Some? ==> forall i :: 0 <= i < |rows| ==> Precedes(Some(OrderBy(CreatedAt, Asc)), cursor.value, rows[i])
  {
    var rows := CommentRows(c, p, cursor);
    forall i, j | 0 <= i < j < |rows| && CreatedAt in rows[i].data && CreatedAt in rows[j].data
        && rows[i].data[CreatedAt].Time? && rows[j].data[CreatedAt].Time?
      ensures Convert(rows[i], now).createdAt <= Convert(rows[j], now).createdAt
    {
      CreatedAtOrder(rows[i], rows[j], now);
    }
  }

  /** Of two rows in ascending creation order stamped with server times, the first was not
      created later. */
  lemma CreatedAtOrder(a: Row, b: Row, now: int)
    requires Precedes(Some(OrderBy(CreatedAt, Asc)), a, b)
    requires CreatedAt in a.data && CreatedAt in b.data && a.data[CreatedAt].Time? && b.data[CreatedAt].Time?
    ensures Convert(a, now).createdAt <= Convert(b, now).createdAt
  {
  }

  /** A page of comments and the cursor for the next one. */
  datatype CommentPage = CommentPage(comments: seq<Comment>, hasMore: bool, lastDoc: Option<Row>)

  /** `getCommentsWithCursor`: rejected for a zero limit; otherwise the converted rows after the
      cursor, `hasMore` when the page is full, and the last row as the next cursor. */
  method GetCommentsWithCursor(db: Db, p: CommentsQuery, lastDoc: Option<Row>, now: int) returns (r: Result<CommentPage>)
    requires db.Valid()
    ensures r.Err? <==> PageLimit(p) == 0
    ensures r.Ok? ==> var rows := CommentRows(db.comments, p, lastDoc);
      |r.value.comments| == |rows|
      && (forall i :: 0 <= i < |rows| ==> r.value.comments[i] == Convert(rows[i], now))
      && (r.value.hasMore <==> |rows| == PageLimit(p))
      && r.value.lastDoc == (if rows == [] then None else Some(rows[|rows| - 1]))
  {
    var queryLimit := p.limit.GetOr(20);
    if queryLimit == 0 {
      return Err("limit() requires a positive number");
    }
    var q := Query([FieldEquals(FeatureRequestId, Str(p.featureRequestId))], Some(OrderBy(CreatedAt, Asc)), Some(queryLimit), None);
    if lastDoc.Some? {
      q := q.(startAfter := lastDoc);
    }
    assert q == CommentsQueryOf(p, lastDoc);
    var rows := Run(db.comments, q);
    assert rows == CommentRows(db.comments, p, lastDoc);
    var comments := ConvertRows(rows, now);
    r := Ok(CommentPage(comments, |rows| == queryLimit, if rows == [] then None else Some(rows[|rows| - 1])));
  }

  /** `getComments`: the same query without a cursor. */
  method GetComments(db: Db, p: CommentsQuery, now: int) returns (r: Result<CommentPage>)
    requires db.Valid()
    ensures r.Err? <==> PageLimit(p) == 0
    ensures r.Ok? ==> var rows := CommentRows(db.comments, p, None);
      |r.value.comments| == |rows|
      && (forall i :: 0 <= i < |rows| ==> r.value.comments[i] == Convert(rows[i], now))
      && (r.value.hasMore <==> |rows| == PageLimit(p))
      && r.value.lastDoc == (if rows == [] then None else Some(rows[|rows| - 1]))
  {
    r := GetCommentsWithCursor(db, p, None, now);
  }

  /** The `forEach` that converts each returned document, in order. */
  method ConvertRows(rows: seq<Row>, now: int) returns (items: seq<Comment>)
    ensures |items| == |rows|
    ensures forall k :: 0 <= k < |rows| ==> items[k] == Convert(rows[k], now)
  {
    items := [];
    var i := 0;
    while i < |rows|
      invariant 0 <= i <= |rows|
      invariant |items| == i
      invariant forall k :: 0 <= k < i ==> items[k] == Convert(rows[k], now)
    {
      items := items + [Convert(rows[i], now)];
      i := i + 1;
    }
  }

  /** The conditions of `getCommentCount`. */
  function CountConditions(featureRequestId: string): seq<Where> {
    [FieldEquals(FeatureRequestId, Str(featureRequestId))]
  }

  /** The count condition holds of exactly the documents whose request id is `fid`. */
  lemma CountOfRequest(c: Collection, fid: string)
    requires c.Valid()
    ensures Count(c, CountConditions(fid))
         == |set id | id in c.docs && FeatureRequestId in c.docs[id] && c.docs[id][FeatureRequestId] == Str(fid)|
  {
    var ws := CountConditions(fid);
    CountIsMatchingDocuments(c, ws);
    forall id | id in c.docs
      ensures HoldsAll(ws, c.docs[id]) <==> FeatureRequestId in c.docs[id] && c.docs[id][FeatureRequestId] == Str(fid)
    {
      assert HoldsAll(ws, c.docs[id]) <==> Holds(ws[0], c.docs[id]);
    }
    assert (set id | id in c.docs && HoldsAll(ws, c.docs[id]))
        == (set id | id in c.docs && FeatureRequestId in c.docs[id] && c.docs[id][FeatureRequestId] == Str(fid));
  }

  /** `getCommentCount`: the number of comments stored for the request. */
  function GetCommentCount(db: Db, featureRequestId: string): (n: nat)
    reads db
    requires db.Valid()
    ensures n == |set id | id in db.comments.docs && FeatureRequestId in db.comments.docs[id]
                           && db.comments.docs[id][FeatureRequestId] == Str(featureRequestId)|
  {
    CountOfRequest(db.comments, featureRequestId);
    Count(db.comments, CountConditions(featureRequestId))
  }

  /** A created comment raises its request's count by one and leaves every other request's as is. */
  lemma CountAfterCreate(c: Collection, data: CreateCommentData, authorId: string, authorName: string, authorEmail: string,
                         authorPhotoURL: Option<string>, now: int, fid: string)
    requires c.Valid()
    ensures var c2 := AddDoc(c, CreatePayload(data, authorId, authorName, authorEmail, authorPhotoURL), now).1;
      Count(c2, CountConditions(fid)) == Count(c, CountConditions(fid)) + (if fid == data.featureRequestId then 1 else 0)
  {
    var p := CreatePayload(data, authorId, authorName, authorEmail, authorPhotoURL);
    CountAfterAdd(c, CountConditions(fid), p, now);
    CreatedMatches(data, authorId, authorName, authorEmail, authorPhotoURL, now, fid);
  }

  /** A created comment satisfies exactly its own request's count condition. */
  lemma CreatedMatches(data: CreateCommentData, authorId: string, authorName: string, authorEmail: string,
                       authorPhotoURL: Option<string>, now: int, fid: string)
    ensures HoldsAll(CountConditions(fid), Written(CreatePayload(data, authorId, authorName, authorEmail, authorPhotoURL), now))
        <==> fid == data.featureRequestId
  {
    var p := CreatePayload(data, authorId, authorName, authorEmail, authorPhotoURL);
    var d := Written(p, now);
    assert FeatureRequestId in p && p[FeatureRequestId] == Put(Str(data.featureRequestId));
    assert d[FeatureRequestId] == Str(data.featureRequestId);
    assert HoldsAll(CountConditions(fid), d) <==> Holds(CountConditions(fid)[0], d);
  }

  /** A deleted comment lowers its request's count by one when it existed, and no other's. */
  lemma CountAfterDeleteComment(c: Collection, id: string, fid: string)
    requires c.Valid()
    ensures Count(DeleteDoc(c, id), CountConditions(fid))
         == Count(c, CountConditions(fid)) - (if id in c.docs && HoldsAll(CountConditions(fid), c.docs[id]) then 1 else 0)
  {
    CountAfterDelete(c, CountConditions(fid), id);
  }
}
