/** The label operations on the document store: conversion with colour
    defaults, create, read, the list ordered by name, update and delete. */
module LabelApi {

  import opened Wrappers
  import opened Documents
  import opened Ordering
  import opened Store
  import opened Types

  const DefaultBackgroundColor: string := "#f3f4f6"
  const DefaultTextColor: string := "#374151"

  /** `convertFirestoreLabelDoc`: a missing or empty name and creator become "", missing colours the
      grey defaults, and times follow the timestamp reading rules. */
  function Convert(r: Row, now: int): Label {
    var d := r.data;
    Label(
      r.id,
      TextOr(d, Name, ""),
      TextOr(d, BackgroundColor, DefaultBackgroundColor),
      TextOr(d, TextColor, DefaultTextColor),
      TimeOr(d, CreatedAt, now),
      TextOr(d, CreatedBy, ""),
      TimeOr(d, UpdatedAt, now))
  }

  /** A label without stored fields converts to the defaults stamped with the current time, and a
      converted label never has an empty colour. */
  lemma ConvertDefaults(r: Row, now: int)
    ensures Convert(Row(r.id, map[]), now) == Label(r.id, "", DefaultBackgroundColor, DefaultTextColor, now, "", now)
    ensures Convert(r, now).backgroundColor != "" && Convert(r, now).textColor != ""
  {
  }

  /** The document `createLabel` writes: the data (colours only when given), the creator and both
      timestamps. */
  function CreatePayload(data: CreateLabelData, createdBy: string): (p: Payload)
    ensures BackgroundColor in p <==> data.backgroundColor.Some?
    ensures TextColor in p <==> data.textColor.Some?
  {
    var p := map[
      Name := Put(Str(data.name)),
      CreatedBy := Put(Str(createdBy)),
      CreatedAt := ServerTimestamp,
      UpdatedAt := ServerTimestamp];
    var p := if data.backgroundColor.Some? then p[BackgroundColor := Put(Str(data.backgroundColor.value))] else p;
    if data.textColor.Some? then p[TextColor := Put(Str(data.textColor.value))] else p
  }

  /** A colour as read back: the given one unless it was left out or empty, then the default. */
  function ColorOr(given: Option<string>, default: string): string {
    if given.Some? && given.value != "" then given.value else default
  }

  /** A created label reads back with its name, creator and both times; each colour reads back as
      given, or as the default when it was left out or empty. */
  lemma CreatedReadsBack(id: string, data: CreateLabelData, createdBy: string, now: int, later: int)
    ensures Convert(Row(id, Written(CreatePayload(data, createdBy), now)), later)
         == Label(id, data.name, ColorOr(data.backgroundColor, DefaultBackgroundColor),
                  ColorOr(data.textColor, DefaultTextColor), now, createdBy, now)
  {
  }

  /** `createLabel`: stores the label under a fresh id and returns the id. */
  method CreateLabel(db: Db, data: CreateLabelData, createdBy: string, now: int) returns (id: string)
    requires db.Valid()
    modifies db`labels
    ensures db.Valid()
    ensures id !in old(db.labels.docs)
    ensures db.labels.docs == old(db.labels.docs)[id := Written(CreatePayload(data, createdBy), now)]
    ensures db.labels.order == old(db.labels.order) + [id]
  {
    var added := AddDoc(db.labels, CreatePayload(data, createdBy), now);
    id := added.0;
    db.labels := added.1;
  }

  /** `getLabel`: the converted label, or `null` when there is none. */
  function GetLabel(db: Db, id: string, now: int): (r: Option<Label>)
    reads db
    ensures r.Some? <==> id in db.labels.docs
    ensures r.Some? ==> r.value == Convert(Row(id, db.labels.docs[id]), now) && r.value.id == id
  {
    match GetDoc(db.labels, id)
    case Some(d) => Some(Convert(Row(id, d), now))
    case None => None
  }

  /** The query of `getLabels`: every label, by name ascending. */
  const ByName: OrderBy := OrderBy(Name, Asc)

  function LabelsQuery(): Query {
    Query([], Some(ByName), None, None)
  }

  /** `getLabels`: the converted labels in name order. */
  method GetLabels(db: Db, now: int) returns (labels: seq<Label>)
    requires db.Valid()
    ensures var rows := Run(db.labels, LabelsQuery());
      |labels| == |rows| && forall i :: 0 <= i < |rows| ==> labels[i] == Convert(rows[i], now)
  {
    var rows := Run(db.labels, LabelsQuery());
    labels := ConvertRows(rows, now);
  }

  /** The loop of `getLabels`: each row converted, in order. */
  method ConvertRows(rows: seq<Row>, now: int) returns (labels: seq<Label>)
    ensures |labels| == |rows|
    ensures forall k :: 0 <= k < |rows| ==> labels[k] == Convert(rows[k], now)
  {
    labels := [];
    var i := 0;
    while i < |rows|
      invariant 0 <= i <= |rows|
      invariant |labels| == i
      invariant forall k :: 0 <= k < i ==> labels[k] == Convert(rows[k], now)
    {
      labels := labels + [Convert(rows[i], now)];
      i := i + 1;
    }
  }

  /** Every label that has a name field, of whatever type, is listed, and only stored labels are listed. */
  lemma ListedLabels(c: Collection, id: string)
    requires c.Valid()
    ensures forall x :: x in Run(c, LabelsQuery()) ==> x.id in c.docs && x.data == c.docs[x.id]
    ensures id in c.docs && Name in c.docs[id] ==> Row(id, c.docs[id]) in Run(c, LabelsQuery())
  {
    if id in c.docs && Name in c.docs[id] {
      assert Selects(LabelsQuery(), Row(id, c.docs[id]));
      RunComplete(c, LabelsQuery(), id);
    }
  }

  /** In the list, a text name never comes after a text name that is smaller: names ascend. */
  lemma ListedByName(c: Collection, i: nat, j: nat)
    requires c.Valid()
    requires var rows := Run(c, LabelsQuery());
      (i < j < |rows| && Name in rows[i].data && rows[i].data[Name].Str? && Name in rows[j].data && rows[j].data[Name].Str?)
    ensures var rows := Run(c, LabelsQuery()); !TextLess(rows[j].data[Name].str, rows[i].data[Name].str)
  {
    var rows := Run(c, LabelsQuery());
    var a, b := rows[i].data[Name].str, rows[j].data[Name].str;
    assert Precedes(Some(ByName), rows[i], rows[j]);
    if a == b {
      TextLessIrreflexive(a);
    } else {
      assert KeyLess(TextKey(a), TextKey(b));
      KeyLessAsymmetric(TextKey(a), TextKey(b));
    }
  }

  /** The fields `updateLabel` sends: exactly the given ones, with their new values, and the
      update time. */
  function UpdatePayload(u: UpdateLabelData): (p: Payload)
    ensures p.Keys <= {Name, BackgroundColor, TextColor, UpdatedAt}
    ensures UpdatedAt in p && p[UpdatedAt] == ServerTimestamp
    ensures (Name in p <==> u.name.Some?) && (Name in p ==> p[Name] == Put(Str(u.name.value)))
    ensures (BackgroundColor in p <==> u.backgroundColor.Some?)
         && (BackgroundColor in p ==> p[BackgroundColor] == Put(Str(u.backgroundColor.value)))
    ensures (TextColor in p <==> u.textColor.Some?) && (TextColor in p ==> p[TextColor] == Put(Str(u.textColor.value)))
  {
    var p := map[UpdatedAt := ServerTimestamp];
    var p := if u.name.Some? then p[Name := Put(Str(u.name.value))] else p;
    var p := if u.backgroundColor.Some? then p[BackgroundColor := Put(Str(u.backgroundColor.value))] else p;
    if u.textColor.Some? then p[TextColor := Put(Str(u.textColor.value))] else p
  }

  /** An update leaves every field other than the given ones and the update time as it was. */
  lemma UpdateKeepsOtherFields(d: Doc, u: UpdateLabelData, now: int)
    ensures var r := ApplyPayload(d, UpdatePayload(u), now);
      forall f :: f !in {Name, BackgroundColor, TextColor, UpdatedAt} ==> (f in r <==> f in d) && (f in d ==> r[f] == d[f])
  {
  }

  /** After an update the label reads back with the given fields (an empty colour as its default),
      the other fields as before, and the update time. */
  lemma UpdateReadsBack(id: string, d: Doc, u: UpdateLabelData, now: int, later: int)
    ensures var before := Convert(Row(id, d), later);
      var after := Convert(Row(id, ApplyPayload(d, UpdatePayload(u), now)), later);
      after.name == (if u.name.Some? then u.name.value else before.name)
      && after.backgroundColor == (if u.backgroundColor.None? then before.backgroundColor
                                   else if u.backgroundColor.value != "" then u.backgroundColor.value
                                   else DefaultBackgroundColor)
      && after.textColor == (if u.textColor.None? then before.textColor
                             else if u.textColor.value != "" then u.textColor.value
                             else DefaultTextColor)
      && after.createdBy == before.createdBy && after.createdAt == before.createdAt && after.updatedAt == now
  {
  }

  /** `updateLabel`: fails when the label does not exist. */
  method UpdateLabel(db: Db, id: string, u: UpdateLabelData, now: int) returns (o: Outcome)
    requires db.Valid()
    modifies db`labels
    ensures db.Valid()
    ensures o.Done? <==> id in old(db.labels.docs)
    ensures o.Done? ==> db.labels.docs == old(db.labels.docs)[id := ApplyPayload(old(db.labels.docs)[id], UpdatePayload(u), now)]
    ensures db.labels.order == old(db.labels.order)
    ensures o.Failed? ==> db.labels == old(db.labels)
  {
    var res := UpdateDoc(db.labels, id, UpdatePayload(u), now);
    match res
    case Ok(c) =>
      db.labels := c;
      o := Done;
    case Err(m) =>
      o := Failed(m);
  }

  /** `deleteLabel`: removes only the label document; requests that carry its id keep it. */
  method DeleteLabel(db: Db, id: string)
    requires db.Valid()
    modifies db`labels
    ensures db.Valid()
    ensures db.labels.docs == old(db.labels.docs) - {id}
    ensures db.featureRequests == old(db.featureRequests)
  {
    db.labels := DeleteDoc(db.labels, id);
  }
}
