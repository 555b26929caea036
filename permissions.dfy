/** Who may edit or delete a feature request or a comment: the same rule in both cards. */
module Permissions {

  import opened Wrappers
  import opened Types

  /** `user && (user.isAdmin || user.uid === authorId)`: a signed-in admin, or the author. */
  predicate MayModify(user: Option<User>, authorId: string) {
    user.Some? && (user.value.isAdmin || user.value.uid == authorId)
  }

  /** Nobody signed out may modify anything; an admin may modify everything; anyone else exactly
      what they wrote. */
  lemma MayModifyCases(user: Option<User>, authorId: string)
    ensures user.None? ==> !MayModify(user, authorId)
    ensures user.Some? && user.value.isAdmin ==> MayModify(user, authorId)
    ensures user.Some? && !user.value.isAdmin ==> (MayModify(user, authorId) <==> user.value.uid == authorId)
  {
  }
}
