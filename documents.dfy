/** Stored documents of the managed document store: maps from field names to
    values, the store's update operators (`increment`, `arrayUnion`,
    `arrayRemove`, `serverTimestamp`), and the `data.f || default` reads the
    converters perform. */
module Documents {

  import opened Wrappers
  import Seqs

  /** A stored field value. `Time` is a stored timestamp, `Null` a stored `null`. */
  datatype Value = Str(str: string) | Num(num: int) | Time(millis: int) | Strs(items: seq<string>) | Flag(flag: bool) | Null

  /** The names of the fields the application stores, one constructor per name; `CacheType`,
      `CachePeriod` and `CacheValue` are the analytics fields stored as "type", "period" and
      "value", and every other constructor is its field's name with the first letter capitalised. */
  datatype Field =
    | Title | Description | Status | Upvotes | UpvotedBy | Labels
    | AuthorId | AuthorName | AuthorEmail | AuthorPhotoURL | CommentsCount | CreatedAt | UpdatedAt
    | Content | FeatureRequestId
    | Name | BackgroundColor | TextColor | CreatedBy
    | Uid | Email | DisplayName | PhotoURL | IsAdmin | LastLoginAt
    | ProjectName | Tagline | PrimaryColor | DefaultTheme | UpdatedBy
    | CacheType | CachePeriod | CacheValue | LastUpdated | ExpiresAt

  /** A stored document: its fields. A field not in the map is missing. */
  type Doc = map<Field, Value>

  /** A document snapshot as a query or a read returns it: the id and the data. */
  datatype Row = Row(id: string, data: Doc)

  /** An entry of an update or of a written document: a plain value or a server-side operator. */
  datatype FieldOp = Put(value: Value) | Increment(amount: int) | ArrayUnion(elem: string) | ArrayRemove(elem: string) | ServerTimestamp

  /** The fields an update or a write sends. */
  type Payload = map<Field, FieldOp>

  /** The new value of a field with current value `current` after operator `op`, at server time `now`:
      `increment` on a field that is not a number treats it as 0, `arrayUnion` adds the element
      unless present, `arrayRemove` removes every occurrence, and both array operators replace a
      non-array field. */
  function ApplyOp(current: Option<Value>, op: FieldOp, now: int): Value {
    match op
    case Put(v) => v
    case Increment(n) =>
      if current.Some? && current.value.Num? then Num(current.value.num + n) else Num(n)
    case ArrayUnion(x) =>
      if current.Some? && current.value.Strs? then
        (if x in current.value.items then current.value else Strs(current.value.items + [x]))
      else Strs([x])
    case ArrayRemove(x) =>
      if current.Some? && current.value.Strs? then Strs(Seqs.RemoveAll(current.value.items, x)) else Strs([])
    case ServerTimestamp => Time(now)
  }

  /** `updateDoc(ref, payload)` on an existing document: the fields in the payload take their new
      values and every other field is kept. */
  function ApplyPayload(d: Doc, p: Payload, now: int): (r: Doc)
    ensures r.Keys == d.Keys + p.Keys
    ensures forall f :: f in p ==> r[f] == ApplyOp(if f in d then Some(d[f]) else None, p[f], now)
    ensures forall f :: f in d && f !in p ==> r[f] == d[f]
  {
    map f | f in d.Keys + p.Keys :: if f in p then ApplyOp(if f in d then Some(d[f]) else None, p[f], now) else d[f]
  }

  /** `setDoc(ref, payload)` or `addDoc(col, payload)`: the document holds exactly the payload's fields. */
  function Written(p: Payload, now: int): (r: Doc)
    ensures r.Keys == p.Keys
    ensures forall f :: f in p ==> r[f] == ApplyOp(None, p[f], now)
  {
    map f | f in p :: ApplyOp(None, p[f], now)
  }

  /** `data.f || fallback` for a text field: a missing, non-text or empty value gives `fallback`. */
  function TextOr(d: Doc, f: Field, fallback: string): string {
    if f in d && d[f].Str? && d[f].str != "" then d[f].str else fallback
  }

  /** `data.f || 0` for a numeric field. */
  function NumberOr(d: Doc, f: Field): int {
    if f in d && d[f].Num? then d[f].num else 0
  }

  /** `data.f || []` for a list field. */
  function ListOr(d: Doc, f: Field): seq<string> {
    if f in d && d[f].Strs? then d[f].items else []
  }

  /** `data.f || false` for a flag. */
  function FlagOr(d: Doc, f: Field): bool {
    f in d && d[f].Flag? && d[f].flag
  }

  /** A stored timestamp converted to a date: the timestamp itself, a non-zero number taken as
      milliseconds, and otherwise the current time `now` (`new Date(data.f || Date.now())`). */
  function TimeOr(d: Doc, f: Field, now: int): int {
    if f in d && d[f].Time? then d[f].millis
    else if f in d && d[f].Num? && d[f].num != 0 then d[f].num
    else now
  }

  /** A text value that may be `null` or absent, as a stored value. */
  function NullableText(s: Option<string>): Value {
    match s
    case Some(t) => Str(t)
    case None => Null
  }

  /** `data.f || ""` for a field written from a nullable text value gives the text, or "" for `null`. */
  lemma NullableTextReadBack(d: Doc, f: Field, s: Option<string>)
    requires f in d && d[f] == NullableText(s)
    ensures TextOr(d, f, "") == s.GetOr("")
  {
  }

  /** Incrementing by `n` and then by `-n` restores a numeric field, and turns a missing one into 0. */
  lemma IncrementInverse(current: Option<Value>, n: int, now: int)
    ensures ApplyOp(Some(ApplyOp(current, Increment(n), now)), Increment(-n), now)
         == if current.Some? && current.value.Num? then current.value else Num(0)
  {
  }

  /** Removing an element after adding it restores a list that did not contain it. */
  lemma UnionThenRemove(items: seq<string>, x: string, now: int)
    requires x !in items
    ensures ApplyOp(Some(ApplyOp(Some(Strs(items)), ArrayUnion(x), now)), ArrayRemove(x), now) == Strs(items)
  {
    Seqs.RemoveAllAppend(items, [x], x);
    Seqs.RemoveAllAbsent(items, x);
  }
}
