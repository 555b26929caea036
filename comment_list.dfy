/** The comment list of one feature request: the avatar initials, who may edit or delete a
    comment, the list shown (every loaded page in order) and the state of the new-comment box and
    of the comment being edited, changed by the submit, edit, save, cancel and delete handlers. */
module CommentList {

  import opened Wrappers
  import opened Types
  import Seqs
  import Text
  import Documents
  import Store
  import QueryCache
  import CommentApi
  import CommentQueries
  import FeatureRequestApi
  import FeatureRequestQueries
  import Permissions
  import CreateRequestForm

  /** The first character of each word, in order; an empty word (between two spaces) gives none. */
  function Heads(words: seq<string>): (r: string)
    ensures |r| <= |words|
    ensures (forall k :: 0 <= k < |words| ==> words[k] != []) ==>
      |r| == |words| && forall k :: 0 <= k < |words| ==> r[k] == words[k][0]
  {
    if words == [] then []
    else (if words[0] == [] then [] else [words[0][0]]) + Heads(words[1..])
  }

  /** No word holding a space, no space among the heads. */
  lemma {:induction false} HeadsHaveNoSpace(words: seq<string>)
    requires forall k :: 0 <= k < |words| ==> ' ' !in words[k]
    ensures ' ' !in Heads(words)
  {
    if words != [] {
      HeadsHaveNoSpace(words[1..]);
      if words[0] != [] {
        assert words[0][0] in words[0];
      }
    }
  }

  /** `getInitials`: the first characters of the space-separated words, upper-cased, at most two. */
  function Initials(name: string): (r: string)
    ensures |r| <= 2
    ensures name == "" ==> r == ""
  {
    Seqs.Take(Text.ToUpper(Heads(Text.Split(name))), 2)
  }

  /** Initials never contain a space. */
  lemma InitialsHaveNoSpace(name: string)
    ensures ' ' !in Initials(name)
  {
    Text.SplitPiecesHaveNoSpace(name);
    HeadsHaveNoSpace(Text.Split(name));
    var h := Heads(Text.Split(name));
    var u := Text.ToUpper(h);
    forall i | 0 <= i < |u| ensures u[i] != ' ' {
      assert h[i] in h;
    }
  }

  /** A single word gives its upper-cased first character. */
  lemma InitialsOfWord(a: string)
    requires a != [] && ' ' !in a
    ensures Initials(a) == [Text.UpperChar(a[0])]
  {
    Text.SplitWord(a);
    assert Heads([a]) == [a[0]];
  }

  /** The heads of two non-empty words followed by more words. */
  lemma TwoHeads(a: string, b: string, w: seq<string>)
    requires a != [] && b != []
    ensures Heads([a, b] + w) == [a[0], b[0]] + Heads(w)
  {
    assert ([a, b] + w)[1..] == [b] + w;
    assert ([b] + w)[1..] == w;
  }

  /** The first two of the upper-cased characters. */
  lemma FirstTwoUpper(x: char, y: char, t: string)
    ensures Seqs.Take(Text.ToUpper([x, y] + t), 2) == [Text.UpperChar(x), Text.UpperChar(y)]
  {
    var u := Text.ToUpper([x, y] + t);
    assert u[0] == Text.UpperChar(x) && u[1] == Text.UpperChar(y);
  }

  /** A name splitting into two non-empty words and then more has their initials. */
  lemma InitialsOfSplit(name: string, a: string, b: string, w: seq<string>)
    requires a != [] && b != [] && Text.Split(name) == [a, b] + w
    ensures Initials(name) == [Text.UpperChar(a[0]), Text.UpperChar(b[0])]
  {
    TwoHeads(a, b, w);
    FirstTwoUpper(a[0], b[0], Heads(w));
  }

  /** Two words give the upper-cased first characters of both. */
  lemma InitialsOfTwoWords(a: string, b: string)
    requires a != [] && ' ' !in a && b != [] && ' ' !in b
    ensures Initials(a + " " + b) == [Text.UpperChar(a[0]), Text.UpperChar(b[0])]
  {
    var name := a + " " + b;
    Text.SplitAfterWord(a, b);
    Text.SplitWord(b);
    assert Text.Split(name) == [a, b] + [];
    InitialsOfSplit(name, a, b, []);
  }

  /** Only the first two words count: later words add nothing. */
  lemma InitialsIgnoreLaterWords(a: string, b: string, rest: string)
    requires a != [] && ' ' !in a && b != [] && ' ' !in b
    ensures Initials(a + " " + b + " " + rest) == [Text.UpperChar(a[0]), Text.UpperChar(b[0])]
  {
    var tail := b + " " + rest;
    var name := a + " " + tail;
    assert a + " " + b + " " + rest == name;
    Text.SplitAfterWord(b, rest);
    Text.SplitAfterWord(a, tail);
    assert Text.Split(name) == [a, b] + Text.Split(rest);
    InitialsOfSplit(name, a, b, Text.Split(rest));
  }

  /** A leading space changes nothing: the empty word before it has no first character. */
  lemma InitialsSkipEmptyWords(name: string)
    ensures Initials(" " + name) == Initials(name)
  {
    Text.SplitAfterWord("", name);
    assert "" + " " + name == " " + name;
    var w := Text.Split(name);
    assert Text.Split(" " + name) == [""] + w;
    assert ([""] + w)[1..] == w;
    assert Heads([""] + w) == Heads(w);
  }

  /** The comments shown: every loaded page's comments, page after page. */
  function Displayed(pages: seq<CommentApi.CommentPage>): seq<Comment> {
    Seqs.FlatMap(pages, (p: CommentApi.CommentPage) => p.comments)
  }

  /** Loading the next page appends exactly its comments to those shown. */
  lemma DisplayedAfterNextPage(pages: seq<CommentApi.CommentPage>, next: CommentApi.CommentPage)
    ensures Displayed(pages + [next]) == Displayed(pages) + next.comments
  {
    Seqs.FlatMapAppend(pages, [next], (p: CommentApi.CommentPage) => p.comments);
  }

  /** When every page holds only one request's comments and at most `limit` of them, so does the
      list shown, with at most `limit` comments per page loaded. */
  lemma {:induction false} DisplayedBounded(pages: seq<CommentApi.CommentPage>, fid: string, limit: nat)
    requires forall i :: 0 <= i < |pages| ==> |pages[i].comments| <= limit
    requires forall i, j :: 0 <= i < |pages| && 0 <= j < |pages[i].comments| ==> pages[i].comments[j].featureRequestId == fid
    ensures |Displayed(pages)| <= limit * |pages|
    ensures forall c :: c in Displayed(pages) ==> c.featureRequestId == fid
  {
    if pages != [] {
      var rest := pages[1..];
      DisplayedBounded(rest, fid, limit);
      assert Displayed(pages) == pages[0].comments + Displayed(rest);
      assert limit * |pages| == limit + limit * |rest|;
      forall c | c in pages[0].comments ensures c.featureRequestId == fid {
        var j :| 0 <= j < |pages[0].comments| && pages[0].comments[j] == c;
      }
    }
  }

  /** The list's query: the request's comments, 20 to a page. */
  function QueryParams(featureRequestId: string): (p: CommentsQuery)
    ensures p.featureRequestId == featureRequestId && CommentApi.PageLimit(p) == 20
  {
    CommentsQuery(featureRequestId, Some(20), None)
  }

  /** Whether a user may edit, and equally delete, a comment: an admin or its author. */
  predicate CanModify(user: Option<User>, c: Comment) {
    Permissions.MayModify(user, c.authorId)
  }

  /** `user.photoURL || undefined`: an empty photo URL is not sent. */
  function PhotoOf(u: User): (r: Option<string>)
    ensures r.Some? <==> u.photoURL.Some? && u.photoURL.value != ""
    ensures r.Some? ==> r == u.photoURL
  {
    if u.photoURL.Some? && u.photoURL.value != "" then u.photoURL else None
  }

  class CommentBox {
    const featureRequestId: string
    var newComment: string
    var editing: Option<Comment>
    var editContent: string

    constructor (featureRequestId: string)
      ensures this.featureRequestId == featureRequestId
      ensures newComment == "" && editing.None? && editContent == ""
    {
      this.featureRequestId := featureRequestId;
      newComment := "";
      editing := None;
      editContent := "";
    }

    /** `handleSubmitComment`: without a user or with blank text nothing is done. Otherwise the
        trimmed text is stored as a comment on this request by the user ("Anonymous" without a
        name, "" without an email, no photo URL without one). The text is cleared only when the
        whole mutation succeeded, which includes raising the request's counter: when only that
        failed, the comment is stored but the text stays. */
    method SubmitComment(db: Store.Db, client: QueryCache.QueryClient, user: Option<User>, now: int,
                         createFails: bool, counterFails: bool) returns (cleared: bool)
      requires db.Valid()
      modifies this`newComment, db`comments, db`featureRequests, client
      ensures db.Valid()
      ensures user.None? || Text.IsBlank(old(newComment)) ==>
        (db.comments == old(db.comments) && db.featureRequests == old(db.featureRequests)
         && client.entries == old(client.entries))
      ensures user.Some? && !Text.IsBlank(old(newComment)) && !createFails ==>
        exists id :: id !in old(db.comments.docs) && db.comments.docs == old(db.comments.docs)[id := Documents.Written(
          CommentApi.CreatePayload(CreateCommentData(Text.Trim(old(newComment)), featureRequestId), user.value.uid,
            CreateRequestForm.AuthorName(user.value), CreateRequestForm.AuthorEmail(user.value), PhotoOf(user.value)), now)]
      ensures user.Some? && !Text.IsBlank(old(newComment)) && createFails ==>
        (db.comments == old(db.comments) && db.featureRequests == old(db.featureRequests)
         && client.entries == old(client.entries))
      ensures cleared <==> user.Some? && !Text.IsBlank(old(newComment)) && !createFails && !counterFails
                           && featureRequestId in old(db.featureRequests.docs)
      ensures newComment == if cleared then "" else old(newComment)
      ensures cleared ==> db.featureRequests.docs == old(db.featureRequests.docs)[featureRequestId := Documents.ApplyPayload(
        old(db.featureRequests.docs)[featureRequestId], FeatureRequestApi.CommentCountPayload(1), now)]
      ensures !cleared ==> db.featureRequests == old(db.featureRequests)
      ensures user.Some? && !Text.IsBlank(old(newComment)) && !createFails ==>
        var counted := FeatureRequestQueries.AfterMutation(old(client.entries), featureRequestId,
          FeatureRequestQueries.OptimisticIncrement, !cleared);
        client.entries == if cleared then CommentQueries.AfterCreate(counted, featureRequestId) else counted
    {
      cleared := false;
      var content := Text.Trim(newComment);
      if user.None? || content == [] {
        return;
      }
      var u := user.value;
      var o, id := CommentQueries.CreateCommentMutation(db, client, CreateCommentData(content, featureRequestId), u.uid,
        CreateRequestForm.AuthorName(u), CreateRequestForm.AuthorEmail(u), PhotoOf(u), now, createFails, counterFails);
      if o.Done? {
        newComment := "";
        cleared := true;
      }
    }

    /** `handleEditComment`: the comment is being edited, starting from its text. */
    method StartEdit(c: Comment)
      modifies this`editing, this`editContent
      ensures editing == Some(c) && editContent == c.content
    {
      editing := Some(c);
      editContent := c.content;
    }

    /** `handleUpdateComment`: with nothing being edited or blank text nothing is done. Otherwise
        the comment's content becomes the trimmed text; only after that succeeded does editing
        end. No counter changes. */
    method SaveEdit(db: Store.Db, client: QueryCache.QueryClient, now: int, fails: bool) returns (saved: bool)
      requires db.Valid()
      modifies this`editing, this`editContent, db`comments, client
      ensures db.Valid()
      ensures saved <==> old(editing).Some? && !Text.IsBlank(old(editContent)) && !fails
                         && old(editing).value.id in old(db.comments.docs)
      ensures saved ==>
        (editing.None? && editContent == ""
         && db.comments.docs == old(db.comments.docs)[old(editing).value.id := Documents.ApplyPayload(
              old(db.comments.docs)[old(editing).value.id], CommentApi.UpdatePayload(UpdateCommentData(Text.Trim(old(editContent)))), now)]
         && client.entries == CommentQueries.AfterUpdate(old(client.entries), old(editing).value.id))
      ensures !saved ==>
        (editing == old(editing) && editContent == old(editContent) && db.comments == old(db.comments)
         && client.entries == old(client.entries))
      ensures db.featureRequests == old(db.featureRequests)
    {
      saved := false;
      var content := Text.Trim(editContent);
      if editing.None? || content == [] {
        return;
      }
      var o := CommentQueries.UpdateCommentMutation(db, client, editing.value.id, UpdateCommentData(content), now, fails);
      if o.Done? {
        editing := None;
        editContent := "";
        saved := true;
      }
    }

    /** `handleCancelEdit`: editing ends and its text is cleared. */
    method CancelEdit()
      modifies this`editing, this`editContent
      ensures editing.None? && editContent == ""
    {
      editing := None;
      editContent := "";
    }
  }

  /** `handleDeleteComment`: the comment is deleted from its own request unless the delete fails;
      the request's counter drops by one only when the whole mutation succeeds. The failure is
      caught, so the list's state is not touched either way. */
  method DeleteComment(db: Store.Db, client: QueryCache.QueryClient, c: Comment, now: int,
                       deleteFails: bool, counterFails: bool) returns (o: Outcome)
    requires db.Valid()
    modifies db`comments, db`featureRequests, client
    ensures db.Valid()
    ensures deleteFails ==> db.comments == old(db.comments) && db.featureRequests == old(db.featureRequests)
    ensures !deleteFails ==> db.comments.docs == old(db.comments.docs) - {c.id}
    ensures o.Done? <==> !deleteFails && !counterFails && c.featureRequestId in old(db.featureRequests.docs)
    ensures o.Done? ==> db.featureRequests.docs == old(db.featureRequests.docs)[c.featureRequestId := Documents.ApplyPayload(
      old(db.featureRequests.docs)[c.featureRequestId], FeatureRequestApi.CommentCountPayload(-1), now)]
    ensures o.Failed? ==> db.featureRequests == old(db.featureRequests)
    ensures deleteFails ==> client.entries == old(client.entries)
    ensures !deleteFails ==>
      var counted := FeatureRequestQueries.AfterMutation(old(client.entries), c.featureRequestId,
        FeatureRequestQueries.OptimisticDecrement, o.Failed?);
      client.entries == if o.Done? then CommentQueries.AfterDelete(counted, c.id, c.featureRequestId) else counted
  {
    o := CommentQueries.DeleteCommentMutation(db, client, c.id, c.featureRequestId, now, deleteFails, counterFails);
  }
}
