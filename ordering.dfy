/** The order in which the document store returns query results: by the
    `orderBy` field's value (null, booleans, numbers, timestamps, text, arrays), ties broken
    by document id, the whole order reversed for a descending sort; with no
    `orderBy`, by document id. Includes the sort that puts rows in this order. */
module Ordering {

  import opened Wrappers
  import opened Documents

  /** Lexicographic order on text, character by character. */
  predicate TextLess(a: string, b: string) {
    if b == [] then false
    else if a == [] then true
    else if a[0] != b[0] then a[0] < b[0]
    else TextLess(a[1..], b[1..])
  }

  lemma {:induction false} TextLessIrreflexive(a: string)
    ensures !TextLess(a, a)
  {
    if a != [] {
      TextLessIrreflexive(a[1..]);
    }
  }

  lemma {:induction false} TextLessTransitive(a: string, b: string, c: string)
    requires TextLess(a, b) && TextLess(b, c)
    ensures TextLess(a, c)
  {
    if a != [] && b != [] && c != [] && a[0] == b[0] && b[0] == c[0] {
      TextLessTransitive(a[1..], b[1..], c[1..]);
    }
  }

  lemma {:induction false} TextLessTotal(a: string, b: string)
    requires a != b
    ensures TextLess(a, b) || TextLess(b, a)
  {
    if a != [] && b != [] && a[0] == b[0] {
      assert a == [a[0]] + a[1..] && b == [b[0]] + b[1..];
      TextLessTotal(a[1..], b[1..]);
    }
  }

  /** Lexicographic order on arrays of text, element by element; a proper prefix comes first. */
  predicate ArrayLess(a: seq<string>, b: seq<string>) {
    if b == [] then false
    else if a == [] then true
    else if a[0] != b[0] then TextLess(a[0], b[0])
    else ArrayLess(a[1..], b[1..])
  }

  lemma {:induction false} ArrayLessIrreflexive(a: seq<string>)
    ensures !ArrayLess(a, a)
  {
    if a != [] {
      ArrayLessIrreflexive(a[1..]);
    }
  }

  lemma {:induction false} ArrayLessTransitive(a: seq<string>, b: seq<string>, c: seq<string>)
    requires ArrayLess(a, b) && ArrayLess(b, c)
    ensures ArrayLess(a, c)
  {
    if a != [] && b != [] && c != [] {
      if a[0] == b[0] && b[0] == c[0] {
        ArrayLessTransitive(a[1..], b[1..], c[1..]);
      } else if a[0] != b[0] && b[0] != c[0] {
        TextLessTransitive(a[0], b[0], c[0]);
        TextLessIrreflexive(a[0]);
      }
    }
  }

  lemma {:induction false} ArrayLessTotal(a: seq<string>, b: seq<string>)
    requires a != b
    ensures ArrayLess(a, b) || ArrayLess(b, a)
  {
    if a != [] && b != [] {
      if a[0] == b[0] {
        assert a == [a[0]] + a[1..] && b == [b[0]] + b[1..];
        ArrayLessTotal(a[1..], b[1..]);
      } else {
        TextLessTotal(a[0], b[0]);
      }
    }
  }

  /** A field value as the store orders it: values of different types by the store's type
      order (null, booleans, numbers, timestamps, text, arrays), values of one type by value. */
  datatype Key = NullKey | FlagKey(b: bool) | NumKey(n: int) | TimeKey(t: int) | TextKey(s: string) | ArrayKey(items: seq<string>)

  function KeyOf(v: Value): Key {
    match v
    case Null => NullKey
    case Flag(b) => FlagKey(b)
    case Num(n) => NumKey(n)
    case Time(t) => TimeKey(t)
    case Str(s) => TextKey(s)
    case Strs(xs) => ArrayKey(xs)
  }

  function Rank(k: Key): nat {
    match k
    case NullKey => 0
    case FlagKey(_) => 1
    case NumKey(_) => 2
    case TimeKey(_) => 3
    case TextKey(_) => 4
    case ArrayKey(_) => 5
  }

  predicate KeyLess(a: Key, b: Key) {
    if Rank(a) != Rank(b) then Rank(a) < Rank(b)
    else match a
      case NullKey => false
      case FlagKey(x) => !x && b.b
      case NumKey(x) => x < b.n
      case TimeKey(x) => x < b.t
      case TextKey(x) => TextLess(x, b.s)
      case ArrayKey(x) => ArrayLess(x, b.items)
  }

  /** The type order the store sorts by: null first, then false before true, numbers, timestamps,
      text and arrays last. */
  lemma TypeOrder(b: bool, n: int, t: int, s: string, xs: seq<string>)
    ensures KeyLess(KeyOf(Null), KeyOf(Flag(b)))
    ensures KeyLess(KeyOf(Flag(false)), KeyOf(Flag(true)))
    ensures KeyLess(KeyOf(Flag(b)), KeyOf(Num(n)))
    ensures KeyLess(KeyOf(Num(n)), KeyOf(Time(t)))
    ensures KeyLess(KeyOf(Time(t)), KeyOf(Str(s)))
    ensures KeyLess(KeyOf(Str(s)), KeyOf(Strs(xs)))
    ensures KeyLess(KeyOf(Strs([])), KeyOf(Strs([s])))
  {
  }

  /** The position of a row in a sort: its key (None when the field is absent) and its id. */
  datatype SortKey = SortKey(key: Option<Key>, id: string)

  predicate SortKeyLess(a: SortKey, b: SortKey) {
    if a.key != b.key then
      (a.key.None? || (b.key.Some? && KeyLess(a.key.value, b.key.value)))
    else TextLess(a.id, b.id)
  }

  lemma SortKeyLessIrreflexive(a: SortKey)
    ensures !SortKeyLess(a, a)
  {
    TextLessIrreflexive(a.id);
  }

  lemma KeyLessTransitive(a: Key, b: Key, c: Key)
    requires KeyLess(a, b) && KeyLess(b, c)
    ensures KeyLess(a, c)
  {
    if Rank(a) == Rank(b) == Rank(c) && a.TextKey? {
      TextLessTransitive(a.s, b.s, c.s);
    } else if Rank(a) == Rank(b) == Rank(c) && a.ArrayKey? {
      ArrayLessTransitive(a.items, b.items, c.items);
    }
  }

  lemma KeyLessTotal(a: Key, b: Key)
    requires a != b
    ensures KeyLess(a, b) || KeyLess(b, a)
  {
    if Rank(a) == Rank(b) && a.TextKey? {
      TextLessTotal(a.s, b.s);
    } else if Rank(a) == Rank(b) && a.ArrayKey? {
      ArrayLessTotal(a.items, b.items);
    }
  }

  lemma KeyLessAsymmetric(a: Key, b: Key)
    requires KeyLess(a, b)
    ensures !KeyLess(b, a)
  {
    if Rank(a) == Rank(b) && a.TextKey? {
      if TextLess(b.s, a.s) {
        TextLessTransitive(a.s, b.s, a.s);
        TextLessIrreflexive(a.s);
      }
    } else if Rank(a) == Rank(b) && a.ArrayKey? {
      if ArrayLess(b.items, a.items) {
        ArrayLessTransitive(a.items, b.items, a.items);
        ArrayLessIrreflexive(a.items);
      }
    }
  }

  lemma SortKeyLessTransitive(a: SortKey, b: SortKey, c: SortKey)
    requires SortKeyLess(a, b) && SortKeyLess(b, c)
    ensures SortKeyLess(a, c)
  {
    if a.key == b.key && b.key == c.key {
      TextLessTransitive(a.id, b.id, c.id);
    } else if a.key != b.key && b.key != c.key && a.key.Some? && a.key == c.key {
      KeyLessAsymmetric(a.key.value, b.key.value);
    } else if a.key != b.key && b.key != c.key && a.key.Some? {
      KeyLessTransitive(a.key.value, b.key.value, c.key.value);
    }
  }

  lemma SortKeyLessTotal(a: SortKey, b: SortKey)
    requires a != b
    ensures SortKeyLess(a, b) || SortKeyLess(b, a)
  {
    if a.key == b.key {
      TextLessTotal(a.id, b.id);
    } else if a.key.Some? && b.key.Some? {
      KeyLessTotal(a.key.value, b.key.value);
    }
  }

  datatype Direction = Asc | Desc
  datatype OrderBy = OrderBy(field: Field, dir: Direction)

  function SortKeyOf(o: Option<OrderBy>, r: Row): SortKey {
    match o
    case None => SortKey(None, r.id)
    case Some(OrderBy(f, _)) => SortKey(if f in r.data then Some(KeyOf(r.data[f])) else None, r.id)
  }

  /** Row `a` comes before row `b` in the result order of a query ordered by `o`. */
  predicate Precedes(o: Option<OrderBy>, a: Row, b: Row) {
    if o.Some? && o.value.dir == Desc then SortKeyLess(SortKeyOf(o, b), SortKeyOf(o, a))
    else SortKeyLess(SortKeyOf(o, a), SortKeyOf(o, b))
  }

  lemma PrecedesIrreflexive(o: Option<OrderBy>, a: Row)
    ensures !Precedes(o, a, a)
  {
    SortKeyLessIrreflexive(SortKeyOf(o, a));
  }

  lemma PrecedesTransitive(o: Option<OrderBy>, a: Row, b: Row, c: Row)
    requires Precedes(o, a, b) && Precedes(o, b, c)
    ensures Precedes(o, a, c)
  {
    if o.Some? && o.value.dir == Desc {
      SortKeyLessTransitive(SortKeyOf(o, c), SortKeyOf(o, b), SortKeyOf(o, a));
    } else {
      SortKeyLessTransitive(SortKeyOf(o, a), SortKeyOf(o, b), SortKeyOf(o, c));
    }
  }

  /** Two rows in different positions of the order: one of them comes first. */
  lemma PrecedesTotal(o: Option<OrderBy>, a: Row, b: Row)
    requires SortKeyOf(o, a) != SortKeyOf(o, b)
    ensures Precedes(o, a, b) || Precedes(o, b, a)
  {
    SortKeyLessTotal(SortKeyOf(o, a), SortKeyOf(o, b));
  }

  lemma PrecedesAsymmetric(o: Option<OrderBy>, a: Row, b: Row)
    requires Precedes(o, a, b)
    ensures !Precedes(o, b, a)
  {
    if Precedes(o, b, a) {
      PrecedesTransitive(o, a, b, a);
      PrecedesIrreflexive(o, a);
    }
  }

  /** Rows with distinct ids occupy distinct positions. */
  lemma DistinctIdsDistinctKeys(o: Option<OrderBy>, a: Row, b: Row)
    requires a.id != b.id
    ensures SortKeyOf(o, a) != SortKeyOf(o, b)
  {
  }

  /** Every row strictly before every later row. */
  predicate StrictlySorted(o: Option<OrderBy>, s: seq<Row>) {
    forall i, j :: 0 <= i < j < |s| ==> Precedes(o, s[i], s[j])
  }

  /** No two rows share an id. */
  predicate DistinctIds(s: seq<Row>) {
    forall i, j :: 0 <= i < j < |s| ==> s[i].id != s[j].id
  }

  /** Inserts `x` into an ordered sequence at its place. */
  function Insert(o: Option<OrderBy>, x: Row, s: seq<Row>): (r: seq<Row>)
    requires StrictlySorted(o, s)
    requires forall y :: y in s ==> y.id != x.id
    ensures |r| == |s| + 1
    ensures forall y :: y in r <==> y == x || y in s
    ensures StrictlySorted(o, r)
  {
    if s == [] then [x]
    else if Precedes(o, s[0], x) then
      var rest := Insert(o, x, s[1..]);
      var r := [s[0]] + rest;
      forall i, j | 0 <= i < j < |r| ensures Precedes(o, r[i], r[j]) {
        if i == 0 {
          assert r[j] in rest;
          if r[j] != x {
            var k :| 0 <= k < |s[1..]| && s[1..][k] == r[j];
            assert s[k + 1] == r[j];
          }
        }
      }
      r
    else
      var r := [x] + s;
      DistinctIdsDistinctKeys(o, x, s[0]);
      PrecedesTotal(o, x, s[0]);
      forall i, j | 0 <= i < j < |r| ensures Precedes(o, r[i], r[j]) {
        if i == 0 && j > 1 {
          PrecedesTransitive(o, x, s[0], s[j - 1]);
        }
      }
      r
  }

  /** The rows of `s` in the result order (an insertion sort). */
  function Sort(o: Option<OrderBy>, s: seq<Row>): (r: seq<Row>)
    requires DistinctIds(s)
    ensures |r| == |s|
    ensures forall y :: y in r <==> y in s
    ensures StrictlySorted(o, r)
  {
    if s == [] then []
    else
      assert DistinctIds(s[1..]);
      var rest := Sort(o, s[1..]);
      assert forall y :: y in rest ==> y.id != s[0].id by {
        forall y | y in rest ensures y.id != s[0].id {
          var k :| 0 <= k < |s[1..]| && s[1..][k] == y;
          assert s[k + 1] == y;
        }
      }
      Insert(o, s[0], rest)
  }

  /** A strictly ordered sequence has no repeated row. */
  lemma StrictlySortedDistinctIds(o: Option<OrderBy>, s: seq<Row>)
    requires StrictlySorted(o, s)
    ensures forall i, j :: 0 <= i < j < |s| ==> s[i] != s[j]
  {
    forall i, j | 0 <= i < j < |s| ensures s[i] != s[j] {
      PrecedesIrreflexive(o, s[i]);
    }
  }
}
