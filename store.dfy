/** An in-memory document store standing in for the managed one: collections
    of documents keyed by id, the reads and writes the application issues
    (`getDoc`, `setDoc`, `addDoc`, `updateDoc`, `deleteDoc`), and queries
    (`where`, `orderBy`, `limit`, `startAfter`) evaluated as filter, then
    order, then skip to the cursor, then take. */
module Store {

  import opened Wrappers
  import Seqs
  import opened Documents
  import opened Ordering

  /** The documents of one collection, and the ids in the order they were created. */
  datatype Collection = Collection(docs: map<string, Doc>, order: seq<string>) {
    /** Each stored id is listed exactly once. */
    predicate Valid() {
      Seqs.NoDups(order) && (forall id :: id in order ==> id in docs)
      && (forall id :: id in docs ==> id in order)
    }
  }

  const EmptyCollection: Collection := Collection(map[], [])

  /** `getDoc`: the document with this id, if it exists. */
  function GetDoc(c: Collection, id: string): Option<Doc> {
    if id in c.docs then Some(c.docs[id]) else None
  }

  /** `setDoc`: the document is created or replaced by exactly the payload's fields. */
  function SetDoc(c: Collection, id: string, p: Payload, now: int): (r: Collection)
    requires c.Valid()
    ensures r.Valid()
    ensures r.docs == c.docs[id := Written(p, now)]
    ensures id in c.docs ==> r.order == c.order
    ensures id !in c.docs ==> r.order == c.order + [id]
  {
    if id in c.docs then Collection(c.docs[id := Written(p, now)], c.order)
    else
      Seqs.AppendNoDups(c.order, id);
      Collection(c.docs[id := Written(p, now)], c.order + [id])
  }

  /** `updateDoc`: fails when the document does not exist; otherwise the payload's fields are
      applied to it and no other document changes. */
  function UpdateDoc(c: Collection, id: string, p: Payload, now: int): (r: Result<Collection>)
    requires c.Valid()
    ensures r.Ok? <==> id in c.docs
    ensures r.Ok? ==> r.value.Valid() && r.value.order == c.order
    ensures r.Ok? ==> r.value.docs == c.docs[id := ApplyPayload(c.docs[id], p, now)]
  {
    if id in c.docs then Ok(Collection(c.docs[id := ApplyPayload(c.docs[id], p, now)], c.order))
    else Err("No document to update: " + id)
  }

  /** `deleteDoc`: removes the document if it exists and succeeds either way. */
  function DeleteDoc(c: Collection, id: string): (r: Collection)
    requires c.Valid()
    ensures r.Valid()
    ensures r.docs == c.docs - {id}
  {
    Seqs.RemoveAllNoDups(c.order, id);
    Collection(c.docs - {id}, Seqs.RemoveAll(c.order, id))
  }

  function MaxLength(ids: seq<string>): (n: nat)
    ensures forall i :: 0 <= i < |ids| ==> |ids[i]| <= n
  {
    if ids == [] then 0
    else
      var m := MaxLength(ids[1..]);
      assert forall i :: 1 <= i < |ids| ==> ids[i] == ids[1..][i - 1];
      if |ids[0]| > m then |ids[0]| else m
  }

  /** An id not in use: longer than every id in use. */
  function FreshId(ids: seq<string>): (r: string)
    ensures r !in ids
  {
    seq(MaxLength(ids) + 1, _ => 'a')
  }

  /** `addDoc`: the payload is stored under a new id, which is returned. */
  function AddDoc(c: Collection, p: Payload, now: int): (r: (string, Collection))
    requires c.Valid()
    ensures r.0 !in c.docs
    ensures r.1.Valid()
    ensures r.1.docs == c.docs[r.0 := Written(p, now)]
    ensures r.1.order == c.order + [r.0]
  {
    var id := FreshId(c.order);
    (id, SetDoc(c, id, p, now))
  }

  /** The snapshots of the documents with the given ids, in that order. */
  function RowsOf(ids: seq<string>, docs: map<string, Doc>): (r: seq<Row>)
    requires forall id :: id in ids ==> id in docs
    ensures |r| == |ids|
    ensures forall i :: 0 <= i < |ids| ==> r[i] == Row(ids[i], docs[ids[i]])
  {
    if ids == [] then [] else [Row(ids[0], docs[ids[0]])] + RowsOf(ids[1..], docs)
  }

  /** Every document of the collection, in creation order. */
  function Rows(c: Collection): (r: seq<Row>)
    requires c.Valid()
    ensures DistinctIds(r)
    ensures forall x :: x in r <==> x.id in c.docs && x.data == c.docs[x.id]
  {
    var r := RowsOf(c.order, c.docs);
    forall x: Row | x.id in c.docs && x.data == c.docs[x.id] ensures x in r {
      var k :| 0 <= k < |c.order| && c.order[k] == x.id;
      assert r[k] == x;
    }
    r
  }

  /** A `where` condition. `AtLeast` compares only with values of the bound's kind. */
  datatype Where =
    | FieldEquals(field: Field, value: Value)
    | ArrayContains(field: Field, elem: string)
    | ArrayContainsAny(field: Field, elems: seq<string>)
    | AtLeast(field: Field, bound: Key)

  predicate Holds(w: Where, d: Doc) {
    w.field in d &&
    match w
    case FieldEquals(f, v) => d[f] == v
    case ArrayContains(f, x) => d[f].Strs? && x in d[f].items
    case ArrayContainsAny(f, xs) => d[f].Strs? && exists x :: x in xs && x in d[f].items
    case AtLeast(f, b) =>
      var k := KeyOf(d[f]);
      Rank(k) == Rank(b) && !KeyLess(k, b)
  }

  predicate HoldsAll(ws: seq<Where>, d: Doc) {
    forall i :: 0 <= i < |ws| ==> Holds(ws[i], d)
  }

  /** A query: its conditions, its order (none: by id), its limit and its `startAfter` cursor. */
  datatype Query = Query(wheres: seq<Where>, orderBy: Option<OrderBy>, limit: Option<nat>, startAfter: Option<Row>)

  /** The query selects this document: every condition holds and, when ordered by a field,
      the document has that field (documents without it are left out, whatever their value type). */
  predicate Selects(q: Query, r: Row) {
    Chosen(q.wheres, q.orderBy, r)
  }

  predicate Chosen(ws: seq<Where>, o: Option<OrderBy>, r: Row) {
    HoldsAll(ws, r.data) && (o.Some? ==> SortKeyOf(o, r).key.Some?)
  }

  /** Ordering by a field keeps every document that has the field, whatever the type of its
      value (null, boolean, array included), and drops exactly those without it. */
  lemma ChosenWithOrderField(ws: seq<Where>, f: Field, dir: Direction, r: Row)
    ensures Chosen(ws, Some(OrderBy(f, dir)), r) <==> HoldsAll(ws, r.data) && f in r.data
  {
  }

  /** The rows satisfying the conditions and having the order field, in their original order. */
  function Selected(ws: seq<Where>, o: Option<OrderBy>, s: seq<Row>): (r: seq<Row>)
    ensures |r| <= |s|
    ensures forall x :: x in r <==> x in s && Chosen(ws, o, x)
  {
    if s == [] then []
    else if Chosen(ws, o, s[0]) then [s[0]] + Selected(ws, o, s[1..])
    else Selected(ws, o, s[1..])
  }

  lemma {:induction false} SelectedAppend(ws: seq<Where>, o: Option<OrderBy>, a: seq<Row>, b: seq<Row>)
    ensures Selected(ws, o, a + b) == Selected(ws, o, a) + Selected(ws, o, b)
  {
    if a == [] {
      assert a + b == b;
    } else {
      assert (a + b)[1..] == a[1..] + b;
      SelectedAppend(ws, o, a[1..], b);
    }
  }

  /** Selecting from rows with distinct ids gives rows with distinct ids. */
  lemma {:induction false} SelectedDistinct(ws: seq<Where>, o: Option<OrderBy>, s: seq<Row>)
    requires DistinctIds(s)
    ensures DistinctIds(Selected(ws, o, s))
  {
    if s != [] {
      assert DistinctIds(s[1..]);
      SelectedDistinct(ws, o, s[1..]);
      var f := Selected(ws, o, s[1..]);
      forall y | y in f ensures y.id != s[0].id {
        var k :| 0 <= k < |s[1..]| && s[1..][k] == y;
        assert s[k + 1] == y;
      }
    }
  }

  /** The selected documents in the query's order, before cursor and limit. */
  function Ordered(c: Collection, q: Query): (r: seq<Row>)
    requires c.Valid()
    ensures |r| == |Selected(q.wheres, q.orderBy, Rows(c))|
    ensures StrictlySorted(q.orderBy, r)
    ensures forall x :: x in r <==> x in Rows(c) && Selects(q, x)
  {
    SelectedDistinct(q.wheres, q.orderBy, Rows(c));
    Sort(q.orderBy, Selected(q.wheres, q.orderBy, Rows(c)))
  }

  /** The rows strictly after `cursor` in order `o`. */
  function After(o: Option<OrderBy>, cursor: Row, s: seq<Row>): (r: seq<Row>)
    ensures forall x :: x in r <==> x in s && Precedes(o, cursor, x)
  {
    if s == [] then []
    else if Precedes(o, cursor, s[0]) then [s[0]] + After(o, cursor, s[1..])
    else After(o, cursor, s[1..])
  }

  /** The rows strictly after the cursor, when there is one. */
  function AfterCursor(q: Query, s: seq<Row>): seq<Row> {
    match q.startAfter
    case None => s
    case Some(cursor) => After(q.orderBy, cursor, s)
  }

  function Limited<T>(s: seq<T>, limit: Option<nat>): (r: seq<T>)
    ensures r <= s
    ensures limit.None? ==> r == s
    ensures limit.Some? ==> |r| == if limit.value < |s| then limit.value else |s|
  {
    match limit
    case None => s
    case Some(n) => Seqs.Take(s, n)
  }

  /** `getDocs(query)`: the selected documents in order, strictly after the cursor, at most `limit`. */
  function Run(c: Collection, q: Query): (r: seq<Row>)
    requires c.Valid()
    ensures q.limit.Some? ==> |r| <= q.limit.value
    ensures forall x :: x in r ==> x.id in c.docs && x.data == c.docs[x.id] && Selects(q, x)
    ensures q.startAfter.Some? ==> forall x :: x in r ==> Precedes(q.orderBy, q.startAfter.value, x)
    ensures StrictlySorted(q.orderBy, r)
  {
    var s := Ordered(c, q);
    var a := AfterCursor(q, s);
    AfterCursorSorted(q, s);
    var r := Limited(a, q.limit);
    PrefixSorted(q.orderBy, a, r);
    r
  }

  lemma AfterCursorSorted(q: Query, s: seq<Row>)
    requires StrictlySorted(q.orderBy, s)
    ensures StrictlySorted(q.orderBy, AfterCursor(q, s))
    ensures forall x :: x in AfterCursor(q, s) ==> x in s
  {
    if q.startAfter.Some? {
      AfterSorted(q.orderBy, q.startAfter.value, s);
    }
  }

  /** A prefix of an ordered sequence is ordered and holds only its rows. */
  lemma PrefixSorted(o: Option<OrderBy>, a: seq<Row>, r: seq<Row>)
    requires StrictlySorted(o, a) && r <= a
    ensures StrictlySorted(o, r)
    ensures forall x :: x in r ==> x in a
  {
    forall x | x in r ensures x in a {
      var k :| 0 <= k < |r| && r[k] == x;
      assert a[k] == x;
    }
  }

  /** Keeping the rows after a cursor keeps an ordered sequence ordered. */
  lemma {:induction false} AfterSorted(o: Option<OrderBy>, cursor: Row, s: seq<Row>)
    requires StrictlySorted(o, s)
    ensures StrictlySorted(o, After(o, cursor, s))
  {
    if s != [] {
      AfterSorted(o, cursor, s[1..]);
      var f := After(o, cursor, s[1..]);
      forall y | y in f ensures Precedes(o, s[0], y) {
        var k :| 0 <= k < |s[1..]| && s[1..][k] == y;
        assert s[k + 1] == y;
      }
    }
  }

  /** In an ordered sequence, the rows after the row at position `k` are exactly the later ones. */
  lemma {:induction false} AfterPosition(o: Option<OrderBy>, s: seq<Row>, k: nat)
    requires StrictlySorted(o, s) && k < |s|
    ensures After(o, s[k], s) == s[k + 1..]
  {
    if k == 0 {
      PrecedesIrreflexive(o, s[0]);
      AllAfter(o, s[0], s[1..]);
    } else {
      PrecedesAsymmetric(o, s[0], s[k]);
      assert StrictlySorted(o, s[1..]);
      AfterPosition(o, s[1..], k - 1);
      assert s[1..][k - 1] == s[k];
      assert s[1..][k..] == s[k + 1..];
    }
  }

  lemma {:induction false} AllAfter(o: Option<OrderBy>, cursor: Row, s: seq<Row>)
    requires forall i :: 0 <= i < |s| ==> Precedes(o, cursor, s[i])
    ensures After(o, cursor, s) == s
  {
    if s != [] {
      AllAfter(o, cursor, s[1..]);
    }
  }

  /** A query without a cursor returns the first `limit` selected documents. */
  lemma FirstPage(c: Collection, q: Query)
    requires c.Valid() && q.startAfter.None?
    ensures Run(c, q) == Limited(Ordered(c, q), q.limit)
  {
  }

  /** A query whose cursor is the selected document at position `k` returns the next `limit`
      documents after it: no document is skipped and none is repeated. */
  lemma PageAfter(c: Collection, q: Query, k: nat)
    requires c.Valid() && k < |Ordered(c, q)| && q.startAfter == Some(Ordered(c, q)[k])
    ensures Run(c, q) == Limited(Ordered(c, q)[k + 1..], q.limit)
  {
    AfterPosition(q.orderBy, Ordered(c, q), k);
  }

  /** Paging with the last row of each page as the next cursor walks the ordered result
      without gaps: if `page` is the window starting at `start`, the query after its last row
      is the window starting right after it. */
  lemma NextPageContinues(c: Collection, q: Query, start: nat, page: seq<Row>)
    requires c.Valid() && start <= |Ordered(c, q)|
    requires page == Limited(Ordered(c, q)[start..], q.limit) && page != []
    ensures Run(c, q.(startAfter := Some(page[|page| - 1])))
         == Limited(Ordered(c, q)[start + |page|..], q.limit)
  {
    var s := Ordered(c, q);
    var q2 := q.(startAfter := Some(page[|page| - 1]));
    assert Ordered(c, q2) == s;
    WindowAfterLast(q.orderBy, s, q.limit, start, page);
    assert Run(c, q2) == Limited(After(q.orderBy, page[|page| - 1], s), q.limit);
  }

  /** In an ordered sequence, the window after the last row of a window is the next window. */
  lemma WindowAfterLast(o: Option<OrderBy>, s: seq<Row>, limit: Option<nat>, start: nat, page: seq<Row>)
    requires StrictlySorted(o, s) && start <= |s|
    requires page == Limited(s[start..], limit) && page != []
    ensures Limited(After(o, page[|page| - 1], s), limit) == Limited(s[start + |page|..], limit)
  {
    var k := start + |page| - 1;
    assert page[|page| - 1] == s[start..][|page| - 1] == s[k];
    AfterPosition(o, s, k);
    assert s[k + 1..] == s[start + |page|..];
  }

  /** Every selected document is returned by a query with neither cursor nor limit. */
  lemma RunComplete(c: Collection, q: Query, id: string)
    requires c.Valid() && q.startAfter.None? && q.limit.None?
    requires id in c.docs && Selects(q, Row(id, c.docs[id]))
    ensures Row(id, c.docs[id]) in Run(c, q)
  {
  }

  /** The query counting the documents that satisfy the conditions. */
  function CountQuery(ws: seq<Where>): Query {
    Query(ws, None, None, None)
  }

  /** The number of documents satisfying the conditions (`snapshot.size` of an unordered query). */
  function Count(c: Collection, ws: seq<Where>): (n: nat)
    requires c.Valid()
    ensures n == |Selected(ws, None, Rows(c))|
  {
    |Run(c, CountQuery(ws))|
  }

  lemma {:induction false} RowsOfFrame(ids: seq<string>, d1: map<string, Doc>, d2: map<string, Doc>)
    requires forall id :: id in ids ==> id in d1 && id in d2 && d1[id] == d2[id]
    ensures RowsOf(ids, d1) == RowsOf(ids, d2)
  {
  }

  /** Adding a document raises the count by one exactly when it satisfies the conditions. */
  lemma CountAfterAdd(c: Collection, ws: seq<Where>, p: Payload, now: int)
    requires c.Valid()
    ensures Count(AddDoc(c, p, now).1, ws) == Count(c, ws) + (if HoldsAll(ws, Written(p, now)) then 1 else 0)
  {
    var (id, c2) := AddDoc(c, p, now);
    RowsOfFrame(c.order, c.docs, c2.docs);
    RowsOfAppend(c.order, c2.docs, id);
    SelectedAppend(ws, None, RowsOf(c.order, c.docs), [Row(id, Written(p, now))]);
  }

  lemma RowsOfAppend(ids: seq<string>, docs: map<string, Doc>, id: string)
    requires forall x :: x in ids ==> x in docs
    requires id in docs
    ensures RowsOf(ids + [id], docs) == RowsOf(ids, docs) + [Row(id, docs[id])]
  {
    var a := RowsOf(ids + [id], docs);
    var b := RowsOf(ids, docs) + [Row(id, docs[id])];
    assert |a| == |b|;
    forall i | 0 <= i < |a| ensures a[i] == b[i] {
      assert (ids + [id])[i] == if i < |ids| then ids[i] else id;
    }
  }

  lemma {:induction false} CountRemoved(ids: seq<string>, docs: map<string, Doc>, x: string, ws: seq<Where>)
    requires Seqs.NoDups(ids) && forall id :: id in ids ==> id in docs
    ensures |Selected(ws, None, RowsOf(Seqs.RemoveAll(ids, x), docs))|
         + (if x in ids && HoldsAll(ws, docs[x]) then 1 else 0)
         == |Selected(ws, None, RowsOf(ids, docs))|
  {
    if ids != [] {
      assert Seqs.NoDups(ids[1..]);
      CountRemoved(ids[1..], docs, x, ws);
      if ids[0] == x {
        assert x !in ids[1..];
        Seqs.RemoveAllAbsent(ids[1..], x);
      } else {
        var rest := Seqs.RemoveAll(ids[1..], x);
        assert Seqs.RemoveAll(ids, x) == [ids[0]] + rest;
        assert RowsOf([ids[0]] + rest, docs) == [Row(ids[0], docs[ids[0]])] + RowsOf(rest, docs) by {
          assert ([ids[0]] + rest)[1..] == rest;
        }
      }
    }
  }

  /** Deleting a document lowers the count by one exactly when it existed and satisfied the
      conditions. */
  lemma CountAfterDelete(c: Collection, ws: seq<Where>, id: string)
    requires c.Valid()
    ensures Count(DeleteDoc(c, id), ws) + (if id in c.docs && HoldsAll(ws, c.docs[id]) then 1 else 0) == Count(c, ws)
  {
    var c2 := DeleteDoc(c, id);
    RowsOfFrame(c2.order, c2.docs, c.docs);
    CountRemoved(c.order, c.docs, id, ws);
  }

  /** Weaker conditions select at least as many rows. */
  lemma {:induction false} SelectedMonotone(ws1: seq<Where>, ws2: seq<Where>, o: Option<OrderBy>, s: seq<Row>)
    requires forall x :: Chosen(ws1, o, x) ==> Chosen(ws2, o, x)
    ensures |Selected(ws1, o, s)| <= |Selected(ws2, o, s)|
  {
    if s != [] {
      SelectedMonotone(ws1, ws2, o, s[1..]);
    }
  }

  /** Without conditions or order every row is selected. */
  lemma {:induction false} SelectedAll(s: seq<Row>)
    ensures Selected([], None, s) == s
  {
    if s != [] {
      SelectedAll(s[1..]);
    }
  }

  lemma {:induction false} DistinctCard(ids: seq<string>)
    requires Seqs.NoDups(ids)
    ensures |set id | id in ids| == |ids|
  {
    if ids != [] {
      assert Seqs.NoDups(ids[1..]);
      DistinctCard(ids[1..]);
      assert (set id | id in ids) == {ids[0]} + (set id | id in ids[1..]);
      assert ids[0] !in (set id | id in ids[1..]);
    }
  }

  /** A count is the number of stored documents satisfying the conditions. */
  lemma CountIsMatchingDocuments(c: Collection, ws: seq<Where>)
    requires c.Valid()
    ensures Count(c, ws) == |set id | id in c.docs && HoldsAll(ws, c.docs[id])|
  {
    var s := Selected(ws, None, Rows(c));
    SelectedDistinct(ws, None, Rows(c));
    var ids := seq(|s|, i requires 0 <= i < |s| => s[i].id);
    DistinctCard(ids);
    forall id ensures id in ids <==> id in c.docs && HoldsAll(ws, c.docs[id]) {
      if id in ids {
        var i :| 0 <= i < |s| && ids[i] == id;
        assert s[i] in s;
      }
      if id in c.docs && HoldsAll(ws, c.docs[id]) {
        var r := Row(id, c.docs[id]);
        assert r in s;
        var i :| 0 <= i < |s| && s[i] == r;
        assert ids[i] == id;
      }
    }
    assert (set id | id in ids) == (set id | id in c.docs && HoldsAll(ws, c.docs[id]));
  }

  /** Counting without conditions gives the number of documents in the collection. */
  lemma CountAll(c: Collection)
    requires c.Valid()
    ensures Count(c, []) == |c.docs|
  {
    SelectedAll(Rows(c));
    DistinctCard(c.order);
    assert (set id | id in c.order) == c.docs.Keys;
  }

  /** The store: one collection per entity. The unused admin-emails collection is not kept. */
  class Db {
    var featureRequests: Collection
    var comments: Collection
    var users: Collection
    var labels: Collection
    var settings: Collection
    var analytics: Collection

    predicate Valid()
      reads this
    {
      featureRequests.Valid() && comments.Valid() && users.Valid() && labels.Valid()
      && settings.Valid() && analytics.Valid()
    }

    constructor ()
      ensures Valid()
      ensures featureRequests == comments == users == labels == settings == analytics == EmptyCollection
    {
      featureRequests := EmptyCollection;
      comments := EmptyCollection;
      users := EmptyCollection;
      labels := EmptyCollection;
      settings := EmptyCollection;
      analytics := EmptyCollection;
    }
  }
}
