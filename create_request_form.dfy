/** The form that creates a feature request: its schema, its free-text label list (added from an
    input box, trimmed and without repeats) and its submit, which resets the form only after the
    request was stored. */
module CreateRequestForm {

  import opened Wrappers
  import opened Types
  import Seqs
  import Text
  import Store
  import Documents
  import FeatureRequestApi

  const MaxTitleLength: nat := 100
  const MaxDescriptionLength: nat := 1000

  /** `createFeatureRequestSchema`: a title of 1 to 100 characters and a description of 1 to 1000. */
  predicate SchemaValid(title: string, description: string) {
    1 <= |title| <= MaxTitleLength && 1 <= |description| <= MaxDescriptionLength
  }

  /** The first schema error, if any. */
  function SchemaError(title: string, description: string): (r: Option<string>)
    ensures r.None? <==> SchemaValid(title, description)
  {
    if |title| < 1 then Some("Title is required")
    else if |title| > MaxTitleLength then Some("Title must be less than 100 characters")
    else if |description| < 1 then Some("Description is required")
    else if |description| > MaxDescriptionLength then Some("Description must be less than 1000 characters")
    else None
  }

  /** The label list the form keeps: no repeats, and every label trimmed and not blank. */
  predicate WellFormedLabels(labels: seq<string>) {
    Seqs.NoDups(labels) && forall i :: 0 <= i < |labels| ==> labels[i] != [] && Text.Trim(labels[i]) == labels[i]
  }

  /** Appending a trimmed, non-empty label that is not yet listed keeps the list well formed. */
  lemma AppendKeepsWellFormed(labels: seq<string>, t: string)
    requires WellFormedLabels(labels) && t != [] && Text.Trim(t) == t && t !in labels
    ensures WellFormedLabels(labels + [t])
  {
    Seqs.AppendNoDups(labels, t);
    var l := labels + [t];
    forall i | 0 <= i < |l| ensures l[i] != [] && Text.Trim(l[i]) == l[i] {
      if i < |labels| {
        assert l[i] == labels[i];
      }
    }
  }

  class Form {
    var title: string
    var description: string
    var labels: seq<string>
    var labelInput: string
    var open: bool

    predicate Valid()
      reads this
    {
      WellFormedLabels(labels)
    }

    constructor (open: bool)
      ensures Valid()
      ensures title == "" && description == "" && labels == [] && labelInput == "" && this.open == open
    {
      title := "";
      description := "";
      labels := [];
      labelInput := "";
      this.open := open;
    }

    /** `handleAddLabel`: a trimmed, non-empty label not yet in the list is appended and the input
        cleared; otherwise nothing changes. */
    method AddLabel()
      requires Valid()
      modifies this`labels, this`labelInput
      ensures Valid()
      ensures var t := Text.Trim(old(labelInput));
        if t != [] && t !in old(labels) then labels == old(labels) + [t] && labelInput == ""
        else labels == old(labels) && labelInput == old(labelInput)
    {
      var trimmed := Text.Trim(labelInput);
      if trimmed != [] && trimmed !in labels {
        Text.TrimIdempotent(labelInput);
        AppendKeepsWellFormed(labels, trimmed);
        labels := labels + [trimmed];
        labelInput := "";
      }
    }

    /** `handleRemoveLabel`: every occurrence of the label goes, the others stay in order. */
    method RemoveLabel(toRemove: string)
      requires Valid()
      modifies this`labels
      ensures Valid()
      ensures labels == Seqs.RemoveAll(old(labels), toRemove)
    {
      Seqs.RemoveAllNoDups(labels, toRemove);
      var kept := Seqs.RemoveAll(labels, toRemove);
      forall i | 0 <= i < |kept| ensures kept[i] != [] && Text.Trim(kept[i]) == kept[i] {
        assert kept[i] in kept;
        assert kept[i] in labels;
        var k :| 0 <= k < |labels| && labels[k] == kept[i];
      }
      labels := kept;
    }

    /** `handleClose`: the form, the labels and the input are reset and the dialog closed. */
    method Close()
      modifies this
      ensures Valid()
      ensures title == "" && description == "" && labels == [] && labelInput == "" && !open
    {
      title := "";
      description := "";
      labels := [];
      labelInput := "";
      open := false;
    }

    /** `handleSubmit(onSubmit)`: nothing is sent when the schema rejects the fields or there is no
        user. Otherwise the fields and the labels are sent with the author's uid, name ("Anonymous"
        without one) and email ("" without one). Only when the request was stored is the form
        reset and the dialog closed; a failed create (`fails`) leaves form and store as they were. */
    method Submit(db: Store.Db, user: Option<User>, now: int, fails: bool) returns (created: Option<string>)
      requires Valid() && db.Valid()
      modifies this, db`featureRequests
      ensures Valid() && db.Valid()
      ensures created.Some? <==> SchemaValid(old(title), old(description)) && user.Some? && !fails
      ensures created.None? ==>
        (db.featureRequests == old(db.featureRequests)
         && title == old(title) && description == old(description) && labels == old(labels)
         && labelInput == old(labelInput) && open == old(open))
      ensures created.Some? ==>
        (db.featureRequests.docs == old(db.featureRequests.docs)[created.value := Documents.Written(
           FeatureRequestApi.CreatePayload(CreateFeatureRequestData(old(title), old(description), Some(old(labels))),
             user.value.uid, AuthorName(user.value), AuthorEmail(user.value)), now)]
         && created.value !in old(db.featureRequests.docs)
         && title == "" && description == "" && labels == [] && labelInput == "" && !open)
    {
      if !SchemaValid(title, description) || user.None? || fails {
        return None;
      }
      var data := CreateFeatureRequestData(title, description, Some(labels));
      var id := FeatureRequestApi.CreateFeatureRequest(db, data, user.value.uid, AuthorName(user.value), AuthorEmail(user.value), now);
      Close();
      created := Some(id);
    }
  }

  /** `user.displayName || "Anonymous"`. */
  function AuthorName(u: User): (r: string)
    ensures r != ""
    ensures u.displayName.Some? && u.displayName.value != "" ==> r == u.displayName.value
  {
    if u.displayName.Some? && u.displayName.value != "" then u.displayName.value else "Anonymous"
  }

  /** `user.email || ""`. */
  function AuthorEmail(u: User): (r: string)
    ensures u.email.Some? ==> r == u.email.value
    ensures u.email.None? ==> r == ""
  {
    u.email.GetOr("")
  }
}
