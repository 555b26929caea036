/** The client-side query cache the hooks write through: entries under
    hierarchical keys, exact-key reads and writes (`getQueryData`,
    `setQueryData`), and filter-based invalidation and removal, where a filter
    key selects every entry whose key it partially matches. Fetching, refetch
    scheduling and garbage collection are not part of this model. */
module QueryCache {

  import opened Wrappers
  import opened Types

  /** One element of a query key: a word, the parameters of a feature-request list, or the
      parameters of a comment list. */
  datatype KeyPart =
    | Word(w: string)
    | FeatureRequestParams(frq: FeatureRequestsQuery)
    | CommentParams(cq: CommentsQuery)

  type Key = seq<KeyPart>

  /** A filter element matches a key element: words and feature-request parameters by equality,
      comment parameters on every field the filter carries. */
  predicate PartMatches(stored: KeyPart, filter: KeyPart) {
    match filter
    case CommentParams(f) =>
      stored.CommentParams? && stored.cq.featureRequestId == f.featureRequestId
      && (f.limit.Some? ==> stored.cq.limit == f.limit)
      && (f.page.Some? ==> stored.cq.page == f.page)
    case _ => stored == filter
  }

  /** A filter key selects a stored key when it is no longer and matches it element by element. */
  predicate Matches(stored: Key, filter: Key) {
    |filter| <= |stored| && forall i :: 0 <= i < |filter| ==> PartMatches(stored[i], filter[i])
  }

  /** Every key matches itself, and so does every key that extends a filter. */
  lemma MatchesExtension(filter: Key, rest: Key)
    ensures Matches(filter + rest, filter)
  {
    forall i | 0 <= i < |filter| ensures PartMatches((filter + rest)[i], filter[i]) {
      assert (filter + rest)[i] == filter[i];
    }
  }

  /** Matching is transitive: a filter that selects a shorter filter's keys selects its matches too. */
  lemma MatchesTransitive(a: Key, b: Key, c: Key)
    requires Matches(a, b) && Matches(b, c)
    ensures Matches(a, c)
  {
  }

  /** Keys that differ at a word position below the filter's length never match. */
  lemma WordMismatch(stored: Key, filter: Key, i: nat)
    requires i < |filter| && i < |stored| && filter[i].Word? && stored[i] != filter[i]
    ensures !Matches(stored, filter)
  {
  }

  /** The value a query holds. `NewUserData` is the record `useCreateUser` writes (the identity and
      the flag, without times); `NullData` is a query that resolved to `null`; `OtherData` stands
      for every result the model does not look into (lists, pages, counts). */
  datatype CachedData =
    | FeatureRequestData(fr: FeatureRequest)
    | UserData(user: User)
    | NewUserData(identity: UserIdentity, isAdmin: bool)
    | NullData
    | OtherData(tag: string)

  /** A cache entry: its data and whether it has been invalidated since it was last written. */
  datatype Entry = Entry(data: CachedData, stale: bool)

  /** A snapshot as the hooks keep it: `previous` is truthy when it holds an object. */
  predicate Truthy(previous: Option<CachedData>) {
    previous.Some? && !previous.value.NullData?
  }

  /** The entries after invalidating `filter`: the selected ones are marked stale, nothing else
      changes and no data is touched. */
  function Invalidated(entries: map<Key, Entry>, filter: Key): (r: map<Key, Entry>)
    ensures r.Keys == entries.Keys
    ensures forall k :: k in r ==> r[k].data == entries[k].data
    ensures forall k :: k in r ==> (r[k].stale <==> entries[k].stale || Matches(k, filter))
  {
    map k | k in entries :: if Matches(k, filter) then entries[k].(stale := true) else entries[k]
  }

  /** The entries after removing `filter`: exactly the selected ones are gone, the rest are kept. */
  function Removed(entries: map<Key, Entry>, filter: Key): (r: map<Key, Entry>)
    ensures forall k :: k in r <==> k in entries && !Matches(k, filter)
    ensures forall k :: k in r ==> r[k] == entries[k]
  {
    map k | k in entries && !Matches(k, filter) :: entries[k]
  }

  /** Invalidating twice is invalidating once. */
  lemma InvalidateIdempotent(entries: map<Key, Entry>, filter: Key)
    ensures Invalidated(Invalidated(entries, filter), filter) == Invalidated(entries, filter)
  {
    var once := Invalidated(entries, filter);
    var twice := Invalidated(once, filter);
    assert forall k :: k in twice ==> twice[k] == once[k];
  }

  /** Invalidating with two filters in either order gives the same entries. */
  lemma InvalidateCommutes(entries: map<Key, Entry>, f1: Key, f2: Key)
    ensures Invalidated(Invalidated(entries, f1), f2) == Invalidated(Invalidated(entries, f2), f1)
  {
    var a := Invalidated(Invalidated(entries, f1), f2);
    var b := Invalidated(Invalidated(entries, f2), f1);
    assert forall k :: k in a ==> a[k] == b[k];
  }

  /** The query client: its entries under their keys. */
  class QueryClient {
    var entries: map<Key, Entry>

    constructor()
      ensures entries == map[]
    {
      entries := map[];
    }

    /** `getQueryData(key)`: the data under exactly that key, if any. */
    function GetQueryData(key: Key): (r: Option<CachedData>)
      reads this
      ensures r.Some? <==> key in entries
      ensures r.Some? ==> r.value == entries[key].data
    {
      if key in entries then Some(entries[key].data) else None
    }

    /** `setQueryData(key, data)`: writes fresh data under exactly that key. */
    method SetQueryData(key: Key, data: CachedData)
      modifies this
      ensures entries == old(entries)[key := Entry(data, false)]
    {
      entries := entries[key := Entry(data, false)];
    }

    /** `invalidateQueries({ queryKey: filter })`. */
    method InvalidateQueries(filter: Key)
      modifies this
      ensures entries == Invalidated(old(entries), filter)
    {
      entries := Invalidated(entries, filter);
    }

    /** `removeQueries({ queryKey: filter })`. */
    method RemoveQueries(filter: Key)
      modifies this
      ensures entries == Removed(old(entries), filter)
    {
      entries := Removed(entries, filter);
    }

    /** Restoring a snapshot taken by `getQueryData`: written back only when it is truthy. */
    method Restore(key: Key, previous: Option<CachedData>)
      modifies this
      ensures entries == if Truthy(previous) then old(entries)[key := Entry(previous.value, false)] else old(entries)
    {
      if Truthy(previous) {
        SetQueryData(key, previous.value);
      }
    }
  }
}
