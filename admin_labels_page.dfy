/** The label administration page: its access gate and the form that creates a label or renames
    the one being edited, with cancel and a confirmed delete. The label hooks' cache effects are not
    part of this model; the page's calls go to the label operations directly. */
module AdminLabelsPage {

  import opened Wrappers
  import opened Types
  import Text
  import Store
  import Documents
  import LabelApi

  /** The page is refused to a signed-in user who is not an admin; a missing user is not refused
      here. */
  predicate Denied(user: Option<User>) {
    user.Some? && !user.value.isAdmin
  }

  class Page {
    var isCreating: bool
    var editingLabel: Option<Label>
    var name: string

    constructor ()
      ensures !isCreating && editingLabel.None? && name == ""
    {
      isCreating := false;
      editingLabel := None;
      name := "";
    }

    /** `handleEdit`: the label is being edited, the form shows its name and is open. */
    method Edit(l: Label)
      modifies this
      ensures editingLabel == Some(l) && name == l.name && isCreating
    {
      editingLabel := Some(l);
      name := l.name;
      isCreating := true;
    }

    /** `handleCancel`: the form is closed, nothing is edited and the name is cleared. */
    method Cancel()
      modifies this
      ensures !isCreating && editingLabel.None? && name == ""
    {
      isCreating := false;
      editingLabel := None;
      name := "";
    }

    /** `handleSubmit`: nothing happens without a user or with a blank name. While editing, the
        label is renamed to the trimmed name and editing ends (the form stays open); otherwise a
        label with the trimmed name and no colours is created by the user and the form closes.
        The name is cleared only after a successful save; a failed save (`fails`, or a label that
        no longer exists) changes nothing. */
    method Submit(db: Store.Db, user: Option<User>, now: int, fails: bool) returns (saved: bool)
      requires db.Valid()
      modifies this, db`labels
      ensures db.Valid()
      ensures saved ==> user.Some? && !Text.IsBlank(old(name)) && !fails
      ensures !saved ==>
        (db.labels.docs == old(db.labels.docs) && isCreating == old(isCreating)
         && editingLabel == old(editingLabel) && name == old(name))
      ensures user.Some? && !Text.IsBlank(old(name)) && !fails && old(editingLabel).None? ==>
        saved && !isCreating && editingLabel.None? && name == ""
        && exists id :: id !in old(db.labels.docs) && db.labels.docs == old(db.labels.docs)[id := Documents.Written(
             LabelApi.CreatePayload(CreateLabelData(Text.Trim(old(name)), None, None), user.value.uid), now)]
      ensures old(editingLabel).Some? ==>
        (saved <==> user.Some? && !Text.IsBlank(old(name)) && !fails && old(editingLabel).value.id in old(db.labels.docs))
      ensures saved && old(editingLabel).Some? ==>
        var id := old(editingLabel).value.id;
        isCreating == old(isCreating) && editingLabel.None? && name == ""
        && db.labels.docs == old(db.labels.docs)[id := Documents.ApplyPayload(old(db.labels.docs)[id],
             LabelApi.UpdatePayload(UpdateLabelData(Some(Text.Trim(old(name))), None, None)), now)]
    {
      saved := false;
      var trimmed := Text.Trim(name);
      if user.None? || trimmed == [] || fails {
        return;
      }
      if editingLabel.Some? {
        var o := LabelApi.UpdateLabel(db, editingLabel.value.id, UpdateLabelData(Some(trimmed), None, None), now);
        if o.Failed? {
          return;
        }
        editingLabel := None;
      } else {
        var id := LabelApi.CreateLabel(db, CreateLabelData(trimmed, None, None), user.value.uid, now);
        isCreating := false;
      }
      name := "";
      saved := true;
    }

    /** `handleDelete`: the label is deleted only once the user confirms; a failed delete changes
        nothing. The form is not touched. */
    method Delete(db: Store.Db, l: Label, confirmed: bool, fails: bool)
      requires db.Valid()
      modifies db`labels
      ensures db.Valid()
      ensures confirmed && !fails ==> db.labels.docs == old(db.labels.docs) - {l.id}
      ensures !confirmed || fails ==> db.labels == old(db.labels)
    {
      if !confirmed || fails {
        return;
      }
      LabelApi.DeleteLabel(db, l.id);
    }
  }

  /** Editing a label and saving it leaves the form open in creation mode with an empty name:
      `isCreating` is set by the edit and only a create or a cancel clears it. */
  method EditThenSave(db: Store.Db, page: Page, l: Label, user: User, now: int) returns (saved: bool)
    requires db.Valid() && l.id in db.labels.docs && !Text.IsBlank(l.name)
    modifies page, db`labels
    ensures saved && page.isCreating && page.editingLabel.None? && page.name == ""
  {
    page.Edit(l);
    saved := page.Submit(db, Some(user), now, false);
  }
}
