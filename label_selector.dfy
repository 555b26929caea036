/** The label selector: toggling and removing label ids in the selection it is given (the new
    selection is handed to its callback), and the text of its trigger button. */
module LabelSelector {

  import Seqs
  import Text

  /** `handleToggleLabel`: a selected id is removed (every occurrence), an unselected one appended. */
  function Toggle(selected: seq<string>, id: string): (r: seq<string>)
    ensures id in r <==> id !in selected
    ensures forall x :: x != id ==> (x in r <==> x in selected)
    ensures id in selected ==> |r| == |selected| - Seqs.Count(selected, id)
    ensures id !in selected ==> r == selected + [id]
  {
    if id in selected then Seqs.RemoveAll(selected, id) else selected + [id]
  }

  /** Toggling the same id twice gives back the selection as a set; on a selection without the id,
      or one holding it once at the end, it gives back the very same sequence. */
  lemma ToggleTwice(selected: seq<string>, id: string)
    ensures forall x :: x in Toggle(Toggle(selected, id), id) <==> x in selected
    ensures id !in selected ==> Toggle(Toggle(selected, id), id) == selected
    ensures selected != [] && selected[|selected| - 1] == id && id !in selected[..|selected| - 1]
            ==> Toggle(Toggle(selected, id), id) == selected
  {
    if id !in selected {
      Seqs.RemoveAllAppend(selected, [id], id);
      Seqs.RemoveAllAbsent(selected, id);
      assert Seqs.RemoveAll([id], id) == [];
    } else if selected[|selected| - 1] == id && id !in selected[..|selected| - 1] {
      var p := selected[..|selected| - 1];
      assert selected == p + [id];
      Seqs.RemoveAllAppend(p, [id], id);
      Seqs.RemoveAllAbsent(p, id);
      assert Seqs.RemoveAll([id], id) == [];
    }
  }

  /** A toggle never puts a duplicate into a duplicate-free selection. */
  lemma ToggleKeepsNoDups(selected: seq<string>, id: string)
    requires Seqs.NoDups(selected)
    ensures Seqs.NoDups(Toggle(selected, id))
  {
    if id in selected {
      Seqs.RemoveAllNoDups(selected, id);
    } else {
      Seqs.AppendNoDups(selected, id);
    }
  }

  /** `handleRemoveLabel`: the selection without the id, the other ids in their order. */
  function Remove(selected: seq<string>, id: string): (r: seq<string>)
    ensures id !in r
    ensures forall x :: x != id ==> (x in r <==> x in selected)
    ensures |r| == |selected| - Seqs.Count(selected, id)
  {
    Seqs.RemoveAll(selected, id)
  }

  /** Removing keeps the order of what stays: removing from a concatenation removes from each part. */
  lemma RemoveKeepsOrder(a: seq<string>, b: seq<string>, id: string)
    ensures Remove(a + b, id) == Remove(a, id) + Remove(b, id)
  {
    Seqs.RemoveAllAppend(a, b, id);
  }

  /** Removing an id that is selected is toggling it. */
  lemma RemoveIsToggleOfSelected(selected: seq<string>, id: string)
    requires id in selected
    ensures Remove(selected, id) == Toggle(selected, id)
  {
  }

  const DefaultPlaceholder: string := "Select labels..."

  /** The trigger text: the placeholder with nothing selected, otherwise the count with "label"
      in the singular for one and the plural for more. */
  function Summary(count: nat, placeholder: string): (r: string)
    ensures count == 0 ==> r == placeholder
    ensures count == 1 ==> r == "1 label selected"
    ensures count > 1 ==> r == Text.NatToString(count) + " labels selected"
  {
    if count > 0 then Text.NatToString(count) + " label" + (if count > 1 then "s" else "") + " selected"
    else placeholder
  }
}
