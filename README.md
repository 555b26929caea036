# Feature-Upvote in Dafny

Feature-Upvote is a feedback board. Signed-in users post **feature requests**, upvote them and
comment on them. Administrators curate **labels**, edit the **branding settings** and read
**analytics** (active users per period, cached with an expiry). The application keeps its data in
a document store with one collection per entity. It mirrors that data in a client-side query
cache, whose entries are updated optimistically, rolled back on failure and invalidated by key
prefix.

This project models the core of that application and proves properties of the model.

- **The document store.** `Store`, `Documents`, `Ordering`: collections of documents and the
  field operations of a write (set, increment, array union and removal, server time). It also
  covers queries with conditions, an order, a limit and a `startAfter` cursor, and counts.
- **The record logic of each entity.** `FeatureRequestApi`, `CommentApi`, `UserApi`,
  `LabelApi`, `SettingsApi`, `AnalyticsApi`: conversion of stored documents with their defaults,
  creation and update payloads, cursor paging, search, counters, the admin lookup, the settings
  singleton and the analytics cache.
- **The query cache.** `QueryCache`, `FeatureRequestQueries`, `CommentQueries`, `UserQueries`:
  the key hierarchies, prefix matching, and the optimistic upvote and counter updates with their
  snapshots and rollbacks. It also covers the pairing of comment mutations with the request's
  comment counter, and the merging of user updates into cached records.
- **The client state around them.** `Auth`, `SettingsContext`, `LabelSelector`,
  `CreateRequestForm`, `AdminLabelsPage`, `AdminSettingsPage`, `Permissions`, `CommentList`,
  `RequestCard`, `RequestsPage`, `Providers`: the signed-in user and its loading flag, the
  settings provider, and the form and page handlers. The handlers are classes whose methods
  change their fields, the store and the cache.
- **Shared definitions.** `Constants`, `Types`, `Seqs`, `Text`, `Wrappers`: the status sets,
  sort options and collection names, the entity records, and the sequence and text operations the
  code uses.

A few conventions hold throughout the model.

- Time is an explicit `now` in milliseconds. A server timestamp is the `now` of the write.
- A failure the code catches or reports (a failed write, a failed read) is a boolean parameter of
  the operation.
- A handler that awaits is one method that calls the store and cache operations in order. The
  upvote button is also split at its `await` (`BeginUpvote` / `EndUpvote`), so that the
  re-entrancy guard can be stated.

## What the code does that a reader may not expect

The model follows the code as written. Several of its behaviours are stated as lemmas:

- `FeatureRequestApi.UnlimitedPageHoldsAll`: a list query without a limit has no limit at all,
  yet `hasMore` compares the page length with 10.
- `FeatureRequestApi.SearchFailsOnUnreadable`: the search lower-cases `data.title` directly,
  and `data.description` only when the title does not contain the term. A row whose title is not
  text therefore makes the whole search fail. So does a row whose title lacks the term and whose
  description is not text.
- `FeatureRequestApi.DecrementBelowZero` and
  `FeatureRequestQueries.OptimisticDecrementClampsWhereStoreDoesNot`: the stored comment counter
  can go below 0, while the optimistic update clamps it at 0.
- `SettingsContext.SettingsProvider.Fetch`: the settings read never throws, so the provider's
  error branch cannot be reached.
- `AdminLabelsPage.EditThenSave`: after an edit is saved, the labels form stays open in creation
  mode.
- `AdminLabelsPage.Page.Submit`: labels created from that page carry no colour.
- `AdminSettingsPage.GatesDifferOnMissingUser`: the labels page does not refuse a visitor who is
  not signed in, while the settings page does.
- `Auth.HookLoading`: the hook's `loading` can be `null` rather than a boolean.
- `AnalyticsApi.ActiveUsersWriteFailureDiscardsCount` and
  `AnalyticsApi.ActiveUsersReadFailureGivesZero`: a failed cache write throws away the count just
  computed, and a failed cache read reports 0 even when a fresh value is cached.
- `CommentList.CommentBox.SubmitComment`: a comment that was stored while its counter update
  failed keeps the text in the box, so submitting again stores it twice.
- `RequestCard.StatusVariants`: the colour map has no entry for Considering or Archived, and has
  entries for Pending and Under Discussion, which are not statuses.
- `RequestsPage.OnlyActiveTabCounts`: only the active tab's badge counts anything, because only
  that tab's requests are loaded.
- `UserQueries.UserKeyShadowsAdminLookups`: the per-user key of a user whose uid is `isAdmin` is
  a prefix of every admin-lookup key, so invalidating it invalidates those too.
- `UserApi.UpdateUserAdminStatus`: the update ignores its `updatedBy` argument.

## Model

The definitions that carry no contract of their own are not listed. These include the converters, the payload builders, `FeatureRequestApi.Toggled`, `UserApi.CheckIsAdmin`, `UserApi.GetAdminUsers`, `AnalyticsApi.IsCacheExpired`, `AnalyticsApi.CalculateActiveUsers`, `FeatureRequestQueries.OptimisticToggle` and `QueryCache.Matches`. What they mean is stated by the lemma rows that cite the same lines.

| member | source | states |
|---|---|---|
| Constants.ParseStatus | src/shared/config/constants.ts:3-21 | a stored name parses only to the status whose name it is |
| Constants.StatusNameRoundTrip | src/shared/config/constants.ts:3-21 | every status name parses back to its status, so no two statuses share a name |
| Constants.AllStatusesExactlyOnce | src/shared/config/constants.ts:17-21 | `ALL_STATUSES` lists seven statuses, each exactly once, and every status is in it |
| Constants.PublicStatusesWithoutArchived | src/shared/config/constants.ts:23-27 | `PUBLIC_STATUSES` is `ALL_STATUSES` with the archived status removed; a status is public iff it is not archived |
| Constants.StatusGroupsDisjoint | src/shared/config/constants.ts:3-13 | the user statuses and the admin statuses share no status |
| Constants.CollectionNamesDistinct | src/shared/config/constants.ts:40-48 | the seven collection names are pairwise distinct |
| FeatureRequestApi.ConvertDefaults | src/entities/feature-request/api/firebase.ts:36-65 | a converted request keeps the document id, and each missing field reads as its default: "" text, "Open" status, 0 counters, empty lists, the current time |
| FeatureRequestApi.ConvertEmpty | src/entities/feature-request/api/firebase.ts:36-65 | an empty document converts to the all-defaults request |
| FeatureRequestApi.CreatedReadsBack | src/entities/feature-request/api/firebase.ts:68-91 | reading back a created request gives the input title, description and labels (none → empty), status "Open", no votes, no voters, no comments, the author fields, and created/updated both at the write time |
| FeatureRequestApi.CreateFeatureRequest | src/entities/feature-request/api/firebase.ts:68-91 | the request is stored under a fresh id, which is returned; every other request is unchanged |
| FeatureRequestApi.GetFeatureRequest | src/entities/feature-request/api/firebase.ts:94-104 | a request is returned iff the document exists, and it carries the asked id |
| FeatureRequestApi.UpdatePayload | src/entities/feature-request/api/firebase.ts:107-116 | the update sends exactly the given fields plus `updatedAt`, and nothing outside title, description, status, labels and `updatedAt` |
| FeatureRequestApi.UpdatedField | src/entities/feature-request/api/firebase.ts:107-116 | after an update, a field that was sent holds its new value, and a field that was not sent is present and equal exactly as before |
| FeatureRequestApi.UpdateKeepsOtherFields | src/entities/feature-request/api/firebase.ts:107-116 | an update keeps every field it cannot send and stamps `updatedAt` with the write time |
| FeatureRequestApi.UpdatedTextField | src/entities/feature-request/api/firebase.ts:107-116 | a text field read after an update is the sent text, or what it was when nothing was sent |
| FeatureRequestApi.UpdateReadsBackText | src/entities/feature-request/api/firebase.ts:45-116 | reading back an update gives the sent title and description; an empty text sent reads as ""; a field not sent reads as before |
| FeatureRequestApi.UpdateReadsBackStatusLabels | src/entities/feature-request/api/firebase.ts:47-116 | reading back an update gives the sent status (an empty one reads as "Open") and the sent labels, else the old ones, and `updatedAt` is the write time |
| FeatureRequestApi.UpdateFeatureRequest | src/entities/feature-request/api/firebase.ts:107-116 | it succeeds iff the request exists; it then applies the update payload to that request alone and otherwise changes nothing |
| FeatureRequestApi.DeleteFeatureRequest | src/entities/feature-request/api/firebase.ts:119-122 | exactly that request is removed |
| FeatureRequestApi.ToggledFields | src/entities/feature-request/api/firebase.ts:140-158 | a voter is removed and the counter decremented; a non-voter is appended and the counter incremented; `updatedAt` is stamped |
| FeatureRequestApi.ToggleKeepsOtherFields | src/entities/feature-request/api/firebase.ts:144-158 | a toggle changes no field but the counter, the voters and `updatedAt` |
| FeatureRequestApi.ToggleFlipsVote | src/entities/feature-request/api/firebase.ts:140-158 | a toggle flips whether the user has voted, moves the counter by one in that direction, and leaves every other voter as they were |
| FeatureRequestApi.ToggleTwice | src/entities/feature-request/api/firebase.ts:140-158 | two toggles by the same user restore the counter and the set of voters, and restore the voter list itself when the user had not voted |
| FeatureRequestApi.ToggleKeepsConsistent | src/entities/feature-request/api/firebase.ts:140-158 | when the counter equals the number of distinct voters, it still does after a toggle |
| FeatureRequestApi.ToggleUpvote | src/entities/feature-request/api/firebase.ts:125-159 | it fails with "Feature request not found" iff the request is missing, and then changes nothing; otherwise exactly that request is toggled for the user |
| FeatureRequestApi.BuildQuery | src/entities/feature-request/api/firebase.ts:162-191 | the query built step by step is the query the list operations run |
| FeatureRequestApi.QueryFilters | src/entities/feature-request/api/firebase.ts:168-175 | the query has a status condition iff a non-empty status filter is given, and a labels condition iff a non-empty labels filter is given; there are no other conditions |
| FeatureRequestApi.QueryOrderAndLimit | src/entities/feature-request/api/firebase.ts:177-188 | the query orders by votes for the votes sort and by creation time otherwise, descending unless a sort direction is given; it is limited iff a positive limit is given; it has no cursor |
| FeatureRequestApi.QueryIgnoresStatusesSearchAndPage | src/entities/feature-request/api/firebase.ts:162-191 | the `statuses`, `search` and `page` parameters do not change the query |
| FeatureRequestApi.GetFeatureRequestsWithCursor | src/entities/feature-request/api/firebase.ts:220-256 | the page holds the converted rows after the cursor, in order; `hasMore` is true iff the page size (the limit, or 10) rows came back; `lastDoc` is the last row, if any |
| FeatureRequestApi.ConvertRows | src/entities/feature-request/api/firebase.ts:238-242 | the loop converts every row, keeping the order |
| FeatureRequestApi.GetFeatureRequests | src/entities/feature-request/api/firebase.ts:194-217 | the first page, with the same contents, `hasMore` and `lastDoc` as the cursor variant without a cursor |
| FeatureRequestApi.PageBounded | src/entities/feature-request/api/firebase.ts:186-244 | a limited page has at most the page size in rows, so `hasMore` means the page is full |
| FeatureRequestApi.UnlimitedPageHoldsAll | src/entities/feature-request/api/firebase.ts:186-209 | without a limit, the page holds every matching request while `hasMore` still compares with 10 |
| FeatureRequestApi.SearchFailsOnUnreadable | src/entities/feature-request/api/firebase.ts:275-285 | the search throws iff some row read has a non-text title, or a title without the term and a non-text description |
| FeatureRequestApi.SearchKeepsOnlyMatches | src/entities/feature-request/api/firebase.ts:279-284 | a successful search returns no more requests than rows read, each a converted row whose title or description contains the term |
| FeatureRequestApi.SearchKeepsAllMatches | src/entities/feature-request/api/firebase.ts:279-284 | a successful search returns every row whose title or description contains the term |
| FeatureRequestApi.SearchErrExtends | src/entities/feature-request/api/firebase.ts:275-285 | once a prefix of the rows throws, the whole search throws the same error |
| FeatureRequestApi.SearchFeatureRequests | src/entities/feature-request/api/firebase.ts:259-288 | the search scans the first 100 rows of the unfiltered query with the lower-cased term, and a successful result holds at most 100 requests |
| FeatureRequestApi.SearchInRows | src/entities/feature-request/api/firebase.ts:275-285 | the loop computes the search over the rows, stopping at the first unreadable row |
| FeatureRequestApi.LowerOfUpper | src/entities/feature-request/api/firebase.ts:277 | lower-casing an upper-cased text is lower-casing it |
| FeatureRequestApi.SearchIgnoresCase | src/entities/feature-request/api/firebase.ts:277-281 | the search result does not depend on the case of the term |
| FeatureRequestApi.CommentCountChange | src/entities/feature-request/api/firebase.ts:299-317 | the comment counter moves by exactly the delta, with no floor at 0, `updatedAt` is stamped and every other field is kept |
| FeatureRequestApi.DecrementBelowZero | src/entities/feature-request/api/firebase.ts:314-317 | decrementing a zero counter stores -1 |
| FeatureRequestApi.IncrementThenDecrement | src/entities/feature-request/api/firebase.ts:291-318 | an increment followed by a decrement restores a numeric counter |
| FeatureRequestApi.ChangeCommentCount | src/entities/feature-request/api/firebase.ts:291-318 | it succeeds iff the request exists, then moves only that request's counter, and otherwise changes nothing |
| FeatureRequestApi.IncrementCommentCount | src/entities/feature-request/api/firebase.ts:291-303 | it succeeds iff the request exists; that request's counter goes up by one and nothing else changes |
| FeatureRequestApi.DecrementCommentCount | src/entities/feature-request/api/firebase.ts:306-318 | it succeeds iff the request exists; that request's counter goes down by one and nothing else changes |
| FeatureRequestQueries.ListsSelectsExactlyLists | src/entities/feature-request/api/queries.ts:29-38 | the `lists()` key selects every `list(params)` key and no detail or search key |
| FeatureRequestQueries.DetailSelectsOnlyItsRequest | src/entities/feature-request/api/queries.ts:29-38 | `details()` selects every detail key; `detail(id)` selects the detail of `other` iff `other == id`, and never a list key |
| FeatureRequestQueries.AllCoversEveryKey | src/entities/feature-request/api/queries.ts:29-38 | every list, detail and search key lies under `all` |
| FeatureRequestQueries.OptimisticToggleMeaning | src/entities/feature-request/api/queries.ts:204-220 | the cached toggle flips whether the user is a voter, moves the counter by one in that direction, keeps every other voter and changes no other field |
| FeatureRequestQueries.OptimisticToggleTwice | src/entities/feature-request/api/queries.ts:204-220 | toggling the cached request twice restores the counter and the set of voters, and the whole request when the user had not voted |
| FeatureRequestQueries.OptimisticToggleAgreesWithStore | src/entities/feature-request/api/queries.ts:204-220 | the optimistic toggle of the cached conversion predicts the counter and voter list the store's toggle produces |
| FeatureRequestQueries.OptimisticCountMeaning | src/entities/feature-request/api/queries.ts:268-326 | the optimistic increment adds one; the optimistic decrement subtracts one from a positive counter and is never negative; neither changes any other field; for a non-negative counter a decrement undoes an increment |
| FeatureRequestQueries.OptimisticDecrementClampsWhereStoreDoesNot | src/entities/feature-request/api/queries.ts:321-324 | at zero, the cached counter stays 0 while the stored counter goes to -1 |
| FeatureRequestQueries.SettledMeaning | src/entities/feature-request/api/queries.ts:240-246 | settling keeps every key and its data, and marks stale exactly the request's detail and every list key, besides those already stale |
| FeatureRequestQueries.OnSettled | src/entities/feature-request/api/queries.ts:240-246 | invalidating `detail(id)` and then `lists()` gives the settled entries (also lines 289-295, 340-346) |
| FeatureRequestQueries.OnMutateToggle | src/entities/feature-request/api/queries.ts:192-224 | the snapshot is what the detail held before; a cached request is replaced by its optimistic toggle; without a cached request the cache is untouched |
| FeatureRequestQueries.OnMutateCommentCount | src/entities/feature-request/api/queries.ts:256-330 | the snapshot is what the detail held before; a cached request gets its optimistic increment or clamped decrement; without one the cache is untouched |
| FeatureRequestQueries.RollbackRestoresData | src/entities/feature-request/api/queries.ts:225-288 | after a failed mutation, every cache entry holds exactly its data from before the optimistic step |
| FeatureRequestQueries.ToggleUpvoteMutation | src/entities/feature-request/api/queries.ts:181-248 | when the call fails, nothing is stored; otherwise it fails iff the request is missing, and on success the stored request is toggled; the cache ends as speculate, roll back on failure, settle |
| FeatureRequestQueries.CommentCountMutation | src/entities/feature-request/api/queries.ts:251-348 | when the call fails, nothing is stored; otherwise it fails iff the request is missing, and on success the stored counter moves by ±1; the cache ends as speculate, roll back on failure, settle |
| FeatureRequestQueries.NextPageParamOfListPage | src/entities/feature-request/api/queries.ts:67-68 | for a page the list operation produced, the next cursor exists iff the page was full, and it is the page's last row |
| QueryCache.MatchesExtension | src/entities/feature-request/api/queries.ts:29-38 | a key built by extending a prefix key is selected by that prefix |
| QueryCache.MatchesTransitive | src/entities/comment/api/queries.ts:30-40 | a key selected by a longer filter is selected by every prefix filter that selects it |
| QueryCache.WordMismatch | src/entities/comment/api/queries.ts:30-40 | keys that differ at a word within the filter's length are not selected |
| QueryCache.Invalidated | src/entities/feature-request/api/queries.ts:242-245 | invalidation keeps every key and its data, and marks stale exactly the selected keys, besides those already stale |
| QueryCache.Removed | src/entities/feature-request/api/queries.ts:163 | removal drops exactly the selected keys and keeps every other entry as it was |
| QueryCache.InvalidateIdempotent | src/entities/feature-request/api/queries.ts:242-245 | invalidating twice with one filter is invalidating once |
| QueryCache.InvalidateCommutes | src/entities/feature-request/api/queries.ts:242-245 | two invalidations give the same entries in either order |
| QueryCache.QueryClient.GetQueryData | src/entities/feature-request/api/queries.ts:199-201 | the data under exactly that key, present iff the key is cached |
| QueryCache.QueryClient.SetQueryData | src/entities/feature-request/api/queries.ts:213-220 | writes fresh data under exactly that key and changes no other entry |
| QueryCache.QueryClient.InvalidateQueries | src/entities/feature-request/api/queries.ts:242-245 | the entries become the invalidated entries |
| QueryCache.QueryClient.RemoveQueries | src/entities/feature-request/api/queries.ts:163 | the entries become the entries with the selected keys removed |
| QueryCache.QueryClient.Restore | src/entities/feature-request/api/queries.ts:227-232 | a truthy snapshot is written back under its key; otherwise nothing changes |
| CommentApi.ConvertEmpty | src/entities/comment/api/firebase.ts:29-54 | an empty document converts to a comment with every text field "" and both times the current time |
| CommentApi.CreatedReadsBack | src/entities/comment/api/firebase.ts:57-77 | reading back a created comment gives the content, the request id, the author fields (no photo → "") and both times at the write time |
| CommentApi.CreateComment | src/entities/comment/api/firebase.ts:57-77 | the comment is stored under a fresh id, which is returned; other comments and every feature request, including its counter, are unchanged |
| CommentApi.GetComment | src/entities/comment/api/firebase.ts:80-88 | a comment is returned iff the document exists, and it carries the asked id |
| CommentApi.UpdateChangesOnlyContent | src/entities/comment/api/firebase.ts:91-100 | an update sets the content and `updatedAt` and keeps every other field |
| CommentApi.UpdateComment | src/entities/comment/api/firebase.ts:91-100 | it succeeds iff the comment exists, then updates only that comment; on failure nothing changes; no feature request changes |
| CommentApi.DeleteComment | src/entities/comment/api/firebase.ts:103-106 | exactly that comment is removed; no feature request changes |
| CommentApi.CommentRowsBelong | src/entities/comment/api/firebase.ts:149-161 | a comment page has at most the limit (default 20) rows, each a stored comment of the asked request |
| CommentApi.SelectedBelongs | src/entities/comment/api/firebase.ts:153 | a row the comment query selects converts to a comment of the asked request |
| CommentApi.CommentRowsOldestFirst | src/entities/comment/api/firebase.ts:154-161 | the page is oldest first, and with a cursor every row comes strictly after the cursor |
| CommentApi.CreatedAtOrder | src/entities/comment/api/firebase.ts:154 | a row ordered before another by creation time converts to a no-later creation time |
| CommentApi.GetCommentsWithCursor | src/entities/comment/api/firebase.ts:141-178 | the page holds the converted rows in order; `hasMore` is true iff a full page came back; `lastDoc` is the last row; a zero limit is an error |
| CommentApi.GetComments | src/entities/comment/api/firebase.ts:109-138 | the same page as the cursor variant without a cursor |
| CommentApi.ConvertRows | src/entities/comment/api/firebase.ts:165-168 | the loop converts every row, keeping the order |
| CommentApi.CountAfterCreate | src/entities/comment/api/firebase.ts:181-191 | a created comment raises its own request's count by one and no other request's |
| CommentApi.CreatedMatches | src/entities/comment/api/firebase.ts:184-187 | a created comment is counted for a request iff it was created for that request |
| CommentApi.CountAfterDeleteComment | src/entities/comment/api/firebase.ts:181-191 | deleting a stored comment lowers its request's count by one and no other request's |
| CommentApi.GetCommentCount | src/entities/comment/api/firebase.ts:181-191 | the count is the number of stored comments whose request id is the one asked for |
| CommentApi.CountOfRequest | src/entities/comment/api/firebase.ts:184-190 | the query's single condition holds of exactly the comments of that request |
| CommentQueries.ListsOfSelectsExactlyItsLists | src/entities/comment/api/queries.ts:30-109 | the filter `list({ featureRequestId })` selects a list key iff it is for that request, and never a detail or count key |
| CommentQueries.ListsAndDetailSelect | src/entities/comment/api/queries.ts:30-38 | `lists()` selects every list key and no detail or count key; `detail(id)` selects only that comment's detail |
| CommentQueries.KeySpacesDisjoint | src/entities/comment/api/queries.ts:30-38 | no comment filter selects a feature-request key, and no feature-request filter selects a comment key |
| CommentQueries.AfterDeleteMeaning | src/entities/comment/api/queries.ts:170-173 | after a delete, exactly the comment's detail is gone, every other entry keeps its data, and exactly the request's lists are newly stale |
| CommentQueries.CommentCallbacksKeepRequestEntries | src/entities/comment/api/queries.ts:102-173 | the comment callbacks' own cache steps leave every feature-request entry as it was |
| CommentQueries.CreateCommentMutation | src/entities/comment/api/queries.ts:83-125 | a failed create changes nothing; otherwise the comment is stored, and the counter mutation then raises the parent's counter by one and fails iff that call fails or the parent is missing; the request's comment lists are invalidated only after the counter succeeded |
| CommentQueries.UpdateCommentMutation | src/entities/comment/api/queries.ts:127-151 | it succeeds iff the call succeeds and the comment exists; the content is then updated; no counter changes; the comment's detail and every comment list are invalidated only on success |
| CommentQueries.DeleteCommentMutation | src/entities/comment/api/queries.ts:153-189 | a failed delete changes nothing; otherwise the comment is removed, and the counter mutation lowers the parent's counter by one; the detail is removed and the request's lists are invalidated only after the counter succeeded |
| CommentQueries.CreateThenDeleteKeepsCount | src/entities/comment/api/queries.ts:104-167 | a +1 then a -1 counter change leaves the parent's counter as it was, and changes nothing but `updatedAt` |
| CommentQueries.NextPageParamOfCommentPage | src/entities/comment/api/queries.ts:65-66 | for a page the comment list produced, the next cursor exists iff the page was full, and it is the page's last row |
| UserApi.ConvertDefaults | src/entities/user/api/firebase.ts:21-42 | a converted user carries the document id; missing texts read as "", a missing flag as false, missing times as the current time |
| UserApi.CreatedReadsBack | src/entities/user/api/firebase.ts:70-80 | reading back a created user gives its identity, the given flag and all three times at the write time |
| UserApi.CreateUser | src/entities/user/api/firebase.ts:70-80 | the user document is written under its uid, replacing any earlier one; no other user changes |
| UserApi.LoginKeepsOtherFields | src/entities/user/api/firebase.ts:88-95 | the login update changes no field but the identity texts, `lastLoginAt` and `updatedAt` |
| UserApi.LoginReadsBack | src/entities/user/api/firebase.ts:88-95 | after a login update the identity reads as given, the admin flag and creation time as before, and both login and update times are the write time |
| UserApi.UpsertUserOnLogin | src/entities/user/api/firebase.ts:82-105 | an existing user gets the login update; a new user is created with `isAdmin` false; no other user changes |
| UserApi.GetUser | src/entities/user/api/firebase.ts:107-120 | a user is returned iff the read succeeds and the document exists; it is that document converted |
| UserApi.UpdateReadsBackIdentity | src/entities/user/api/firebase.ts:122-131 | after an update, each identity text is the given value when one was given, else as before |
| UserApi.UpdatedText | src/entities/user/api/firebase.ts:122-131 | one identity text after an update is the given value, or what it was before |
| UserApi.UpdateReadsBackFlagAndTimes | src/entities/user/api/firebase.ts:122-131 | after an update, the flag is the given one or as before, creation and login times are kept, and the update time is the write time |
| UserApi.UpdateUser | src/entities/user/api/firebase.ts:122-131 | it succeeds iff the user exists, then updates only that user; on failure nothing changes |
| UserApi.CheckIsAdminSound | src/entities/user/api/firebase.ts:133-148 | the answer is true only for a non-empty email held by a stored user whose flag is set, and false when no user has the email |
| UserApi.CheckIsAdminOfUniqueUser | src/entities/user/api/firebase.ts:133-148 | when exactly one user has the email, the answer is that user's flag |
| UserApi.AdminStatusChangesOnlyFlag | src/entities/user/api/firebase.ts:151-161 | the admin update sets the flag, which reads back, stamps `updatedAt`, and keeps every other field |
| UserApi.UpdateUserAdminStatus | src/entities/user/api/firebase.ts:151-161 | it succeeds iff the user exists, then changes only that user's flag and update time; the acting admin is not recorded |
| UserApi.AdminUsersAreAdmins | src/entities/user/api/firebase.ts:164-172 | every listed admin is a stored user whose flag is set |
| UserApi.SelectedAdmin | src/entities/user/api/firebase.ts:167 | a row the admin query selects converts to an admin |
| UserApi.AdminsAreListed | src/entities/user/api/firebase.ts:164-172 | every stored user whose flag is stored as `true` is listed |
| UserApi.GetUserFeatureRequests | src/entities/user/api/firebase.ts:175-231 | on a failure the page is empty with no more; otherwise it holds the converted rows that remain once the extra row is dropped, `hasMore` is true iff more than `limitCount` rows came back, and `lastDoc` is the last kept row |
| UserApi.CollectRows | src/entities/user/api/firebase.ts:202-205 | the loop collects every row and its conversion, in order |
| UserApi.DropExtra | src/entities/user/api/firebase.ts:207-217 | `hasMore` is true iff more than `limitCount` rows came back; the requests kept are a prefix of those collected; the cursor is the last kept row |
| UserApi.UserPageBounded | src/entities/user/api/firebase.ts:186-214 | a user page keeps at most `limitCount` rows, a prefix of those read, newest first; more than `limitCount` rows came back iff exactly one extra did |
| UserApi.UserPageAuthored | src/entities/user/api/firebase.ts:186-191 | every request on a user page was written by that user |
| UserApi.SelectedAuthored | src/entities/user/api/firebase.ts:188 | a row the author condition selects carries that author |
| UserApi.DroppedRowStartsNextPage | src/entities/user/api/firebase.ts:190-217 | the row dropped from a full page is the first row of the next page |
| UserApi.GetUserVotedFeatureRequests | src/entities/user/api/firebase.ts:234-257 | on a failure the list is empty; otherwise it holds the converted requests the user voted for, newest first |
| UserApi.VotedRequestsHaveTheVoter | src/entities/user/api/firebase.ts:239-243 | every request returned lists the user among its voters |
| UserApi.SelectedVoted | src/entities/user/api/firebase.ts:241 | a row the vote query selects lists the voter |
| UserApi.GetUserStats | src/entities/user/api/firebase.ts:260-289 | on a failure both counts are 0; otherwise they are the numbers of requests and of comments with that author |
| UserApi.StatsAfterComment | src/entities/user/api/firebase.ts:274-280 | a new comment raises its author's comment count by one and nobody else's |
| UserApi.AuthoredComment | src/entities/user/api/firebase.ts:275 | a created comment meets the author condition of exactly its author |
| UserQueries.UserKeySelectsOnlyItsUser | src/entities/user/api/queries.ts:23-35 | for a uid that is not one of the keys' words, `user(uid)` selects its own entry and no entry of another user or of another user key |
| UserQueries.UserKeyShadowsAdminLookups | src/entities/user/api/queries.ts:25-27 | the key of a user whose uid is "isAdmin" is a prefix of every admin-lookup key |
| UserQueries.PrefixesCoverTheirKeys | src/entities/user/api/queries.ts:23-35 | `details()` selects every detail key, and `all` selects every user key |
| UserQueries.UserQuery | src/entities/user/api/queries.ts:38-45 | the user query runs iff the uid is non-empty, keyed by it; otherwise it is keyed by "" |
| UserQueries.IsAdminQuery | src/entities/user/api/queries.ts:47-54 | the admin lookup runs iff the email is non-empty, keyed by it; otherwise it is keyed by "" |
| UserQueries.PerUserQueries | src/entities/user/api/queries.ts:65-107 | the four per-user queries run iff the id is non-empty, and all their keys lie under `all` |
| UserQueries.MergedMeaning | src/entities/user/api/queries.ts:158-160 | the merge overrides exactly the given fields and keeps the others; merging twice is merging once; an empty update changes nothing |
| UserQueries.MergedAgreesWithStore | src/entities/user/api/queries.ts:158-160 | the merged cached user equals the user the store reads back after the same update, except the update time, which the store sets to the write time |
| UserQueries.AfterUpdateTouchesOnlyTheUser | src/entities/user/api/queries.ts:156-160 | the cache merge changes no entry but `user(uid)`, and an absent or `null` cached user stays as it was |
| UserQueries.UpdateUserMutation | src/entities/user/api/queries.ts:150-163 | it succeeds iff the call succeeds and the user exists; the user is then updated and the cached user merged; on failure nothing changes |
| UserQueries.AfterUpsertMeaning | src/entities/user/api/queries.ts:135-146 | after an upsert, every entry keeps its data, and exactly `user(uid)` and, for a non-empty email, `isAdmin(email)` are newly stale |
| UserQueries.UpsertUserOnLoginMutation | src/entities/user/api/queries.ts:129-148 | it succeeds iff the call succeeds; an existing user then gets the login update and a new one is created as a non-admin, and the cache is invalidated as above; on failure nothing changes |
| UserQueries.CreateUserMutation | src/entities/user/api/queries.ts:110-126 | it succeeds iff the call succeeds; the user is then written and the cache updated; on failure nothing changes |
| UserQueries.AfterCreateCachesTheRecord | src/entities/user/api/queries.ts:115-117 | after a create, `user(uid)` holds the data written, fresh |
| UserQueries.UserFeatureRequestsPage | src/entities/user/api/queries.ts:75-87 | pages have 12 rows at most; a next parameter exists iff the extra row came back, and it is the 12th row; a failed page has none |
| UserQueries.NextParamOfUserPage | src/entities/user/api/queries.ts:83-85 | the next parameter is the last kept row exactly when more than the page size came back |
| LabelApi.ConvertDefaults | src/entities/label/api/firebase.ts:21-44 | an empty document converts to an empty name, the default colours "#f3f4f6" and "#374151", no creator and the current time; a converted label never has an empty colour |
| LabelApi.CreatePayload | src/entities/label/api/firebase.ts:53-58 | the stored label has a colour field iff the input gives that colour |
| LabelApi.CreatedReadsBack | src/entities/label/api/firebase.ts:47-61 | reading back a created label gives its name, its colours (missing or empty → default), its creator, and both times at the write time |
| LabelApi.CreateLabel | src/entities/label/api/firebase.ts:47-61 | the label is stored under a fresh id, which is returned; no other label changes |
| LabelApi.GetLabel | src/entities/label/api/firebase.ts:64-72 | a label is returned iff the document exists, and it is that document converted |
| LabelApi.GetLabels | src/entities/label/api/firebase.ts:75-86 | the result is the converted rows of the name-ordered query, in order |
| LabelApi.ConvertRows | src/entities/label/api/firebase.ts:81-83 | the loop converts every row, keeping the order |
| LabelApi.ListedLabels | src/entities/label/api/firebase.ts:75-86 | only stored labels are listed, and every stored label that has a name field, whatever the type of its value, is listed |
| LabelApi.ListedByName | src/entities/label/api/firebase.ts:76 | in the list, text names ascend |
| LabelApi.UpdatePayload | src/entities/label/api/firebase.ts:93-97 | the update sends exactly the given name and colours plus the update time |
| LabelApi.UpdateKeepsOtherFields | src/entities/label/api/firebase.ts:93-97 | an update keeps every field other than the given ones and the update time |
| LabelApi.UpdateReadsBack | src/entities/label/api/firebase.ts:89-98 | after an update, the name and colours read as given (an empty colour as the default) or as before; creator and creation time are kept; the update time is the write time |
| LabelApi.UpdateLabel | src/entities/label/api/firebase.ts:89-98 | it succeeds iff the label exists, then updates only that label; on failure nothing changes |
| LabelApi.DeleteLabel | src/entities/label/api/firebase.ts:101-104 | exactly that label is removed; feature requests that carry its id keep it |
| SettingsApi.GetAppSettings | src/entities/settings/api/firebase.ts:36-62 | the settings returned never have an empty branding field; a missing document or a failed read gives the defaults |
| SettingsApi.EmptyDocumentReadsAsDefaults | src/entities/settings/api/firebase.ts:16-33 | a stored document without fields reads exactly as the defaults |
| SettingsApi.UpdatePayload | src/entities/settings/api/firebase.ts:75-79 | the update sends exactly the given branding fields, the update time and the editor |
| SettingsApi.CreatePayload | src/entities/settings/api/firebase.ts:82-88 | the created document holds all four branding fields, both times and the editor |
| SettingsApi.Updated | src/entities/settings/api/firebase.ts:70-89 | after a save the settings document exists, and no other document of the collection changes |
| SettingsApi.UpdateExistingReadsBack | src/entities/settings/api/firebase.ts:19-79 | saving into an existing document reads back each given field (an empty one as the default), every other field and the creation time as before, and the write time and editor |
| SettingsApi.CreateReadsBack | src/entities/settings/api/firebase.ts:19-88 | saving with no document reads back each given field (an empty one as the default), the defaults for the rest, and the write time as both times |
| SettingsApi.UpdateReadsBack | src/entities/settings/api/firebase.ts:65-94 | whether the document existed or not, the settings read after a save are the settings read before, with the given fields saved and the editor and time recorded |
| SettingsApi.UpdateAppSettings | src/entities/settings/api/firebase.ts:65-94 | it fails exactly when the call fails, and then changes nothing; otherwise the settings become the updated settings |
| SettingsApi.ResetReadsDefaults | src/entities/settings/api/firebase.ts:97-110 | after a reset the settings read as the defaults, both times at the reset, with the editor recorded |
| SettingsApi.ResetIsCreateWithDefaults | src/entities/settings/api/firebase.ts:82-105 | the reset document is the document a save with no document writes, whether it gives the defaults or gives nothing |
| SettingsApi.ResetAppSettings | src/entities/settings/api/firebase.ts:97-110 | it fails exactly when the call fails, and then changes nothing; otherwise the document is overwritten with the reset document |
| AnalyticsApi.CacheIdsDistinct | src/entities/analytics/api/firebase.ts:53-54 | the cache ids of two different periods of one kind differ, so each period has its own document |
| AnalyticsApi.GetCachedAnalytics | src/entities/analytics/api/firebase.ts:49-61 | an entry is returned exactly when the document `<kind>_<period>` exists, and it carries that id |
| AnalyticsApi.CacheReadsBack | src/entities/analytics/api/firebase.ts:64-85 | an entry written now reads back with its kind, period, value, last-updated time now and expiry one cache duration later; it counts as expired exactly after that expiry |
| AnalyticsApi.LongerPeriodsStayFresh | src/entities/analytics/api/firebase.ts:19-29 | of entries written together, the daily one expires after exactly one hour and the weekly one after six, and while a shorter period's entry is fresh so is every longer one |
| AnalyticsApi.CacheWriteKeepsOtherPeriods | src/entities/analytics/api/firebase.ts:64-85 | writing one period's entry leaves every other period's entry as it was |
| AnalyticsApi.LoginCondition | src/entities/analytics/api/firebase.ts:109-113 | the query's `lastLoginAt >= start` condition holds of a user document exactly when its last login is a stored time at or after the start |
| AnalyticsApi.ActiveUserCounted | src/entities/analytics/api/firebase.ts:88-117 | every counted user logged in at or after the start of the period, and every user who did is counted |
| AnalyticsApi.ActiveUsersMonotone | src/entities/analytics/api/firebase.ts:95-105 | counted at the same time, a period that looks further back never has fewer active users |
| AnalyticsApi.ActiveUsersServesFreshCache | src/entities/analytics/api/firebase.ts:127-130 | a cached value that has not expired is returned unchanged, whatever the users or the later steps would do, and the cache is not written |
| AnalyticsApi.ActiveUsersStaleIfError | src/entities/analytics/api/firebase.ts:139-147 | when counting or writing the cache fails, the previously cached value is returned even if expired, or 0 without one, and the cache is unchanged |
| AnalyticsApi.GetActiveUsers | src/entities/analytics/api/firebase.ts:120-148 | the returned count and the new analytics collection are those of the specification function, whose cases the lemmas beside it state |
| AnalyticsApi.ActiveUsersComputesWhenStale | src/entities/analytics/api/firebase.ts:132-138 | without a fresh entry and without failures, the users are counted and the count is cached until one cache duration from now |
| AnalyticsApi.ActiveUsersCachedWithinDuration | src/entities/analytics/api/firebase.ts:26-28 | a count computed now is what every call returns for one cache duration afterwards, whatever the users do meanwhile |
| AnalyticsApi.ActiveUsersWriteFailureDiscardsCount | src/entities/analytics/api/firebase.ts:133-146 | when the cache write fails, the freshly computed count is not returned: the expired value or 0 is |
| AnalyticsApi.ActiveUsersReadFailureGivesZero | src/entities/analytics/api/firebase.ts:123-146 | when reading the cache fails, nothing has been cached in `cached` and the call returns 0 |
| AnalyticsApi.GetActiveUsersAnalytics | src/entities/analytics/api/firebase.ts:151-164 | the daily, weekly and monthly counts, each obtained as by `getActiveUsers`, stamped with the current time |
| AnalyticsApi.FreshAnalyticsOrdered | src/entities/analytics/api/firebase.ts:150-164 | when all three counts are computed fresh, daily ≤ weekly ≤ monthly |
| AnalyticsApi.Total | src/entities/analytics/api/firebase.ts:167-198 | the number of documents in the collection, or 0 when the read fails |
| Auth.DerivedUser | src/shared/contexts/auth-context.tsx:104-116 | a user exists exactly when the identity does; the stored record when there is one, otherwise the identity's uid, email, name and photo with admin rights only when the admin lookup said yes |
| Auth.DerivedUserCarriesIdentity | src/shared/contexts/auth-context.tsx:55-78 | after the login upsert, the user shared carries the identity's uid, email, name and photo whether or not the record has loaded; once it has, its last login is the upsert time and its admin flag is the one stored before |
| Auth.HookLoading | src/shared/hooks/use-auth.ts:99-101 | the hook's `loading` is true while the first auth event is pending, `null` when signed out, and otherwise whether the user record is loading |
| Auth.LoadingAgrees | src/shared/hooks/use-auth.ts:101 | the hook's `loading` is `true` exactly when the provider's boolean `loading` is true |
| Auth.LoadingAfterAuthEvent | src/shared/contexts/auth-context.tsx:118-121 | after the first auth event a signed-out session is not loading, and a signed-in one is loading exactly while its record loads |
| Auth.UseAuth | src/shared/contexts/auth-context.tsx:130-136 | the provider's value inside a provider, an error outside one |
| Auth.AuthSession.constructor | src/shared/contexts/auth-context.tsx:39-40 | a session starts with no identity and loading |
| Auth.AuthSession.Value | src/shared/contexts/auth-context.tsx:104-123 | the value shared holds a user exactly when signed in; after the first event it is loading exactly while a signed-in user's record loads |
| Auth.AuthSession.OnAuthStateChanged | src/shared/contexts/auth-context.tsx:55-78 | the identity is recorded and loading ends; a sign-in upserts the user document and updates the cached user queries, a sign-out or a failed upsert changes neither store nor cache |
| SettingsContext.ErrorOf | src/shared/contexts/settings-context.tsx:52-54 | a thrown `Error` is recorded as it is; anything else becomes "Failed to fetch settings" |
| SettingsContext.SettingsProvider.constructor | src/shared/contexts/settings-context.tsx:29-31 | the provider starts without settings, loading and without an error |
| SettingsContext.SettingsProvider.Exposed | src/shared/contexts/settings-context.tsx:33-76 | the settings exposed are the fetched ones, or the defaults before any fetch; either way every branding field is present |
| SettingsContext.SettingsProvider.FetchStart | src/shared/contexts/settings-context.tsx:43-44 | a fetch first sets loading and clears the error, keeping the settings |
| SettingsContext.SettingsProvider.FetchEnd | src/shared/contexts/settings-context.tsx:45-62 | a fetch ends not loading, with the fetched settings, or with the defaults and the recorded error when the read threw |
| SettingsContext.SettingsProvider.Fetch | src/shared/contexts/settings-context.tsx:40-69 | as the settings read never throws, every fetch ends with the settings read, no error and nothing loading |
| LabelSelector.Toggle | src/shared/ui/label-selector.tsx:32-40 | toggling removes every occurrence of a selected id and appends an unselected one; no other id's membership changes |
| LabelSelector.ToggleTwice | src/shared/ui/label-selector.tsx:32-40 | toggling twice restores the selected set, and the exact list when the id was not selected or was selected once, at the end |
| LabelSelector.ToggleKeepsNoDups | src/shared/ui/label-selector.tsx:32-40 | toggling never puts a repeat into a selection without repeats |
| LabelSelector.Remove | src/shared/ui/label-selector.tsx:42-44 | after a removal the id is absent, every other id keeps its membership, and exactly its occurrences are gone |
| LabelSelector.RemoveKeepsOrder | src/shared/ui/label-selector.tsx:42-44 | removal works element by element, so the remaining ids keep their order |
| LabelSelector.RemoveIsToggleOfSelected | src/shared/ui/label-selector.tsx:32-44 | removing a selected id is the same as toggling it |
| LabelSelector.Summary | src/shared/ui/label-selector.tsx:81-85 | the button reads the placeholder with nothing selected, "1 label selected" for one and "<n> labels selected" for more |
| CreateRequestForm.SchemaError | src/features/create-feature-request/create-feature-request-form.tsx:23-32 | there is no error exactly when the title has 1 to 100 characters and the description 1 to 1000 |
| CreateRequestForm.Form.constructor | src/features/create-feature-request/create-feature-request-form.tsx:49-59 | the form starts empty, with no labels and an empty label input |
| CreateRequestForm.Form.AddLabel | src/features/create-feature-request/create-feature-request-form.tsx:61-67 | the trimmed input is appended and the input cleared when it is non-blank and not yet listed; otherwise nothing changes; the list stays trimmed and free of repeats |
| CreateRequestForm.Form.RemoveLabel | src/features/create-feature-request/create-feature-request-form.tsx:69-71 | every occurrence of the label is removed, the others keep their order |
| CreateRequestForm.Form.Close | src/features/create-feature-request/create-feature-request-form.tsx:107-112 | the fields, the labels and the input are reset and the dialog is closed |
| CreateRequestForm.Form.Submit | src/features/create-feature-request/create-feature-request-form.tsx:80-105 | a request is stored exactly when the schema accepts the form, a user is signed in and the store write succeeds; only then is the form reset and closed, otherwise the form and the store are unchanged |
| CreateRequestForm.AuthorName | src/features/create-feature-request/create-feature-request-form.tsx:92 | the author name is never empty: the user's display name, or "Anonymous" |
| CreateRequestForm.AuthorEmail | src/features/create-feature-request/create-feature-request-form.tsx:93 | the author email is the user's email, or "" |
| AdminLabelsPage.Page.constructor | src/app/admin/labels/page.tsx:35-37 | the page starts with the form closed, nothing edited and an empty name |
| AdminLabelsPage.Page.Edit | src/app/admin/labels/page.tsx:84-88 | editing shows the label's name, remembers the label and opens the form |
| AdminLabelsPage.Page.Cancel | src/app/admin/labels/page.tsx:104-108 | cancelling closes the form, forgets the edited label and clears the name |
| AdminLabelsPage.Page.Submit | src/app/admin/labels/page.tsx:58-82 | without a user or with a blank name nothing happens; a new label is created with the trimmed name and the form closed; an edited label that exists gets the trimmed name and the edit ends; a failed save leaves the store and the form as they were |
| AdminLabelsPage.Page.Delete | src/app/admin/labels/page.tsx:90-102 | a confirmed delete that succeeds removes exactly that label's document; otherwise the labels are unchanged |
| AdminLabelsPage.EditThenSave | src/app/admin/labels/page.tsx:63-88 | after editing and saving a label the form stays open in creation mode with an empty name, because only a create or a cancel clears `isCreating` |
| AdminSettingsPage.GatesDifferOnMissingUser | src/app/admin/settings/page.tsx:89-100 | both admin pages refuse a signed-in non-admin and admit an admin, but only the settings page refuses when nobody is signed in (the labels page's gate at src/app/admin/labels/page.tsx:45 lets a missing user through) |
| AdminSettingsPage.FormValues | src/app/admin/settings/page.tsx:52-70 | without settings the form starts with an empty name and tagline and the default colour and theme; with settings whose branding fields are all present it shows exactly those |
| AdminSettingsPage.DefaultsSatisfySchema | src/app/admin/settings/page.tsx:28-57 | the default settings pass the settings schema, while the form's start values without settings fail it |
| AdminSettingsPage.AsUpdates | src/app/admin/settings/page.tsx:77 | the submitted form is saved as an update giving all four branding fields |
| AdminSettingsPage.SavedFormReadsBack | src/app/admin/settings/page.tsx:72-87 | saving a form the schema accepts and reading the settings back gives exactly the form's values, the editor and the save time, whatever was stored before |
| AdminSettingsPage.Page.constructor | src/app/admin/settings/page.tsx:40 | the page starts not saving |
| AdminSettingsPage.Page.Submit | src/app/admin/settings/page.tsx:72-87 | a submit saves exactly when the schema accepts the form, a user is signed in and the save succeeds; then the settings are refetched into the provider; a failed save changes neither store nor provider; saving is over afterwards either way |
| AdminSettingsPage.SubmitThenShow | src/app/admin/settings/page.tsx:72-87 | after a successful save and refetch the provider exposes exactly the submitted branding fields |
| CommentList.Heads | src/widgets/comment-list/comment-list.tsx:52-55 | one first character per non-empty word, in order; an empty word contributes nothing |
| CommentList.HeadsHaveNoSpace | src/widgets/comment-list/comment-list.tsx:52-55 | words without spaces give first characters without spaces |
| CommentList.Initials | src/widgets/comment-list/comment-list.tsx:51-58 | the initials have at most two characters, and an empty name has none |
| CommentList.InitialsHaveNoSpace | src/widgets/comment-list/comment-list.tsx:51-58 | splitting on spaces means no initial is ever a space |
| CommentList.InitialsOfWord | src/widgets/comment-list/comment-list.tsx:51-58 | a single word gives its first character upper-cased |
| CommentList.InitialsOfSplit | src/widgets/comment-list/comment-list.tsx:51-58 | a name whose first two words are non-empty gives their first characters upper-cased |
| CommentList.InitialsOfTwoWords | src/widgets/comment-list/comment-list.tsx:51-58 | "first last" gives the upper-cased first characters of both words |
| CommentList.InitialsIgnoreLaterWords | src/widgets/comment-list/comment-list.tsx:51-58 | words after the second add nothing to the initials |
| CommentList.InitialsSkipEmptyWords | src/widgets/comment-list/comment-list.tsx:51-58 | a leading space changes nothing, as the empty word before it has no first character |
| CommentList.DisplayedAfterNextPage | src/widgets/comment-list/comment-list.tsx:140 | loading the next page appends exactly its comments to those shown, in order |
| CommentList.DisplayedBounded | src/widgets/comment-list/comment-list.tsx:125-140 | when every page holds at most `limit` comments of one request, everything shown belongs to it and there are at most `limit` per loaded page |
| CommentList.QueryParams | src/widgets/comment-list/comment-list.tsx:125 | the list asks for the request's comments, 20 to a page |
| CommentList.PhotoOf | src/widgets/comment-list/comment-list.tsx:154 | the author photo is sent only when the user has a non-empty one |
| CommentList.CommentBox.constructor | src/widgets/comment-list/comment-list.tsx:121-123 | the box starts with no new text, nothing edited and no edit text |
| CommentList.CommentBox.SubmitComment | src/widgets/comment-list/comment-list.tsx:142-160 | without a user or with blank text nothing changes; otherwise the trimmed text is stored as a new comment by the user; the text is cleared exactly when the whole mutation, counter included, succeeded; then the request's counter went up by one, otherwise the requests are unchanged; a failed create leaves comments, requests and cache unchanged; after a create the cache holds the optimistic increment, rolled back if the counter update failed, settled, and on success the request's comment lists invalidated |
| CommentList.CommentBox.StartEdit | src/widgets/comment-list/comment-list.tsx:162-165 | editing starts from the comment's text |
| CommentList.CommentBox.SaveEdit | src/widgets/comment-list/comment-list.tsx:167-180 | a save succeeds exactly when a comment is edited, the text is not blank, it exists and the write succeeds; then only its content and update time change, the cache entries are invalidated and the editor closes; otherwise nothing changes; no request's counter changes either way |
| CommentList.CommentBox.CancelEdit | src/widgets/comment-list/comment-list.tsx:193-196 | cancelling ends the edit and clears its text |
| CommentList.DeleteComment | src/widgets/comment-list/comment-list.tsx:182-191 | unless the delete fails the comment's document is removed; the request's counter drops by one exactly when the whole mutation succeeds, and otherwise is unchanged; a failed delete leaves the cache unchanged; otherwise the cache holds the optimistic decrement, rolled back if the counter update failed, settled, and on success the comment's detail removed and the request's lists invalidated |
| Permissions.MayModifyCases | src/widgets/comment-list/comment-list.tsx:48-49 | nobody signed out may edit or delete; an admin always may; anyone else exactly when they are the author (the same rule as src/widgets/feature-request-card/feature-request-card.tsx:60-63) |
| Providers.ShouldRetry | src/lib/providers.tsx:19-26 | a query failing with an `Error` carrying a 4xx status is never retried; any other failure is retried while fewer than three attempts failed |
| Providers.RetriesBounded | src/lib/providers.tsx:19-26 | no query is retried after three failures, and failures other than client errors are all retried alike |
| RequestCard.ToggleFlipsHasUpvoted | src/widgets/feature-request-card/feature-request-card.tsx:59 | the optimistic toggle an upvote click starts flips whether the button shows the user as having voted |
| RequestCard.StatusVariant | src/widgets/feature-request-card/feature-request-card.tsx:38-46 | a status listed in the colour map gets its variant; any other gets "default" (also lines 155) |
| RequestCard.StatusVariants | src/widgets/feature-request-card/feature-request-card.tsx:38-46 | Considering and Archived fall back to "default", In Progress is "info", Will Do and Completed share "success", and the keys Pending and Under Discussion name no status (also lines 155) |
| RequestCard.MenuVisibility | src/widgets/feature-request-card/feature-request-card.tsx:60-116 | the actions menu never shows when signed out; for an admin, and for the author, it shows exactly when the card allows actions |
| RequestCard.Card.constructor | src/widgets/feature-request-card/feature-request-card.tsx:57 | a card starts with no upvote in flight |
| RequestCard.Card.BeginUpvote | src/widgets/feature-request-card/feature-request-card.tsx:65-75 | a click goes ahead exactly when a user is signed in and no upvote is in flight; then one is in flight |
| RequestCard.Card.EndUpvote | src/widgets/feature-request-card/feature-request-card.tsx:81-83 | after the upvote, succeeded or failed, none is in flight |
| RequestCard.Card.Upvote | src/widgets/feature-request-card/feature-request-card.tsx:65-84 | an ignored click changes nothing; otherwise the user's vote is toggled exactly when the request exists and the store write succeeds, a failure leaves the requests unchanged, and no upvote is in flight afterwards; the cache holds the optimistic toggle, rolled back on failure, with the detail and lists invalidated |
| RequestCard.DoubleClick | src/widgets/feature-request-card/feature-request-card.tsx:73 | a second click while the first upvote is in flight is ignored, so only one toggle runs |
| RequestsPage.Find | src/app/feature-requests/page.tsx:63-101 | the position of the first choice with that value, or none when no choice has it |
| RequestsPage.CurrentSortOfEachValue | src/app/feature-requests/page.tsx:36-102 | each of the three values selects its own sort; any other value sorts by votes, most first, and is labelled "Most Upvoted" |
| RequestsPage.LabelNamesAppliedSort | src/app/feature-requests/page.tsx:63-102 | the sort button's caption always belongs to the choice whose sort is applied |
| RequestsPage.TabsAreBasicStatuses | src/app/feature-requests/page.tsx:23-27 | the tabs are Open, In Progress and Completed, the statuses every user sees, in their order |
| RequestsPage.QueryParams | src/app/feature-requests/page.tsx:67-71 | the list query filters on the active tab's status only, with the current sort and pages of 12 |
| RequestsPage.InitialQuery | src/app/feature-requests/page.tsx:59-71 | on arrival the page asks the store for open requests, most upvoted first, 12 at a time |
| RequestsPage.TabQuery | src/app/feature-requests/page.tsx:67-71 | every tab's store query has its status as the only condition and a limit of 12 |
| RequestsPage.StatusConverts | src/app/feature-requests/page.tsx:67-71 | a stored request whose status is that non-empty text is read back with that status |
| RequestsPage.PageHoldsOnlyActiveTab | src/app/feature-requests/page.tsx:67-83 | every page loaded holds at most 12 requests, all in the active tab's status |
| RequestsPage.TabContents | src/app/feature-requests/page.tsx:218-219 | a tab shows exactly the loaded requests in its status |
| RequestsPage.TabCount | src/app/feature-requests/page.tsx:144-147 | a tab's badge never counts more than was loaded |
| RequestsPage.LoadedHaveStatus | src/app/feature-requests/page.tsx:82-83 | when every loaded page holds requests of one status, so does the flattened list |
| RequestsPage.FilterKeepsAll | src/app/feature-requests/page.tsx:218-219 | filtering a list whose requests all have the tab's status gives back the list itself |
| RequestsPage.FilterKeepsNone | src/app/feature-requests/page.tsx:144-147 | filtering a list with no request of the tab's status gives nothing |
| RequestsPage.OnlyActiveTabCounts | src/app/feature-requests/page.tsx:67-147 | as the list is loaded for the active tab only, that tab shows all that was loaded and every other tab's badge shows 0 |
| AnalyticsApi.ActiveUsers | src/entities/analytics/api/firebase.ts:120-148 | whatever the failures, the analytics collection left behind stays well formed; its cases are stated by the lemmas that follow it |
| AnalyticsApi.CacheWritten | src/entities/analytics/api/firebase.ts:64-85 | writing a cache entry keeps the analytics collection well formed |
| Documents.ApplyPayload | src/entities/feature-request/api/firebase.ts:146-157 | an update keeps every field it does not name, and each named field becomes the result of its operation (set, increment, array union or removal, server time) on the old value |
| Documents.Written | src/entities/feature-request/api/firebase.ts:76-88 | a written document holds exactly the payload's fields, each the result of its operation on an absent value |
| Documents.IncrementInverse | src/entities/feature-request/api/firebase.ts:299-317 | an increment by `n` followed by one by `-n` restores a stored number, and leaves 0 where there was none |
| Documents.UnionThenRemove | src/entities/feature-request/api/firebase.ts:146-157 | adding an absent element to an array and then removing it restores the array |
| Documents.NullableTextReadBack | src/entities/user/api/firebase.ts:21-30 | a text stored as given, `null` included, is read back as that text or "" (also lines 74-103) |
| Store.SetDoc | src/entities/user/api/firebase.ts:74-103 | `setDoc` replaces the whole document by the payload's fields, adding the id at the end of the creation order when it is new |
| Store.UpdateDoc | src/entities/feature-request/api/firebase.ts:112-117 | `updateDoc` fails exactly when the document does not exist, and otherwise applies the payload to that document alone |
| Store.DeleteDoc | src/entities/feature-request/api/firebase.ts:121 | `deleteDoc` removes exactly that document, present or not |
| Store.AddDoc | src/entities/feature-request/api/firebase.ts:76-91 | `addDoc` stores the payload under an id not in use, which it returns, and changes no other document |
| Store.Rows | src/entities/feature-request/api/firebase.ts:202 | the snapshot lists every document of the collection once, with its data |
| Store.Selected | src/entities/feature-request/api/firebase.ts:169-187 | the documents kept are exactly those meeting every condition and, when the query is ordered, having the order field |
| Store.ChosenWithOrderField | src/entities/feature-request/api/firebase.ts:179-182 | ordering by a field keeps a document exactly when it has that field, whatever the type of the value |
| Store.Ordered | src/entities/feature-request/api/firebase.ts:169-187 | the query's documents, each once, strictly in the query's order |
| Store.Limited | src/entities/feature-request/api/firebase.ts:187 | a limit keeps a prefix of that many documents, or all when fewer exist |
| Store.Run | src/entities/feature-request/api/firebase.ts:226-245 | `getDocs` returns stored documents meeting the conditions, strictly in order, strictly after the cursor and at most `limit` of them |
| Store.FirstPage | src/entities/feature-request/api/firebase.ts:226-245 | without a cursor a query returns the first `limit` documents of its order |
| Store.PageAfter | src/entities/feature-request/api/firebase.ts:232-236 | with the document at position `k` as cursor a query returns the next `limit` documents after it |
| Store.NextPageContinues | src/entities/feature-request/api/firebase.ts:232-245 | using a page's last document as the cursor yields exactly the next window of the order, so successive pages neither skip nor repeat |
| Store.RunComplete | src/entities/analytics/api/firebase.ts:109-116 | a query with neither cursor nor limit returns every document meeting its conditions |
| Store.Count | src/entities/comment/api/firebase.ts:184-190 | `snapshot.size` of an unordered query is the number of documents meeting its conditions |
| Store.CountAfterAdd | src/entities/comment/api/firebase.ts:66-74 | adding a document raises a count by one exactly when the new document meets the conditions (also lines 184-190) |
| Store.CountAfterDelete | src/entities/comment/api/firebase.ts:105 | deleting a document lowers a count by one exactly when it existed and met the conditions (also lines 184-190) |
| Store.CountAll | src/entities/analytics/api/firebase.ts:167-198 | counting without conditions gives the number of documents in the collection |
| Store.SelectedMonotone | src/entities/analytics/api/firebase.ts:95-113 | if every row chosen by the first conditions is also chosen by the second, the first selection has at most as many rows as the second |
| Ordering.Sort | src/entities/feature-request/api/firebase.ts:179-182 | the rows are put in the query's order: the same rows, each once, strictly ordered |
| Ordering.TypeOrder | src/entities/feature-request/api/firebase.ts:179-182 | values of different types sort null first, then booleans (false before true), numbers, timestamps, text and arrays |
| Ordering.Insert | src/entities/feature-request/api/firebase.ts:179-182 | inserting a row into an ordered list gives an ordered list holding it and the rest |
| Text.Trim | src/features/create-feature-request/create-feature-request-form.tsx:62 | `trim()` removes surrounding whitespace and line terminators, Unicode space separators included: the result is the input with a blank prefix and a blank suffix cut off, it neither starts nor ends with whitespace, and it is empty exactly for a blank text |
| Text.IdeographicSpaceIsBlank | src/widgets/comment-list/comment-list.tsx:143 | a text of ideographic spaces trims to nothing, and em spaces and paragraph separators are trimmed too |
| Text.TrimIdempotent | src/features/create-feature-request/create-feature-request-form.tsx:62-63 | trimming a trimmed text changes nothing |
| Text.ToLower | src/entities/feature-request/api/firebase.ts:277-281 | `toLowerCase` maps every character to its lower case and keeps the length |
| Text.ToUpper | src/widgets/comment-list/comment-list.tsx:56 | `toUpperCase` maps every character to its upper case and keeps the length |
| Text.Includes | src/entities/feature-request/api/firebase.ts:280-281 | `includes` holds exactly when the term occurs at some position of the text |
| Text.Split | src/widgets/comment-list/comment-list.tsx:53 | `split(" ")` gives one piece more than there are spaces |
| Text.SplitPiecesHaveNoSpace | src/widgets/comment-list/comment-list.tsx:53 | no piece of `split(" ")` contains a space |
| Text.SplitWord | src/widgets/comment-list/comment-list.tsx:53 | a text without a space splits into itself alone |
| Text.SplitAfterWord | src/widgets/comment-list/comment-list.tsx:53 | a word, a space and the rest split into the word followed by the pieces of the rest |
| Text.NatToString | src/shared/ui/label-selector.tsx:81-85 | the decimal form of a count is a non-empty run of digits starting with 0 only for zero |
| Store.CountIsMatchingDocuments | src/entities/comment/api/firebase.ts:184-190 | `snapshot.size` equals the number of distinct stored documents satisfying the conditions |

## Left out

- Transport and consistency of the document store (network, offline persistence, listeners, transactions) are not modelled. Every store call completes at once, with success or with a failure given as a parameter.
- Concurrency between in-flight mutations and refetches is not modelled, except the upvote button's in-flight guard, which is modelled as two steps.
- The query library's internals are not modelled: request scheduling, the `staleTime` and `gcTime` timers, `cancelQueries`, the retry loop and back-off, refetch on focus, and the management of infinite-query pages. The model keeps only the cache entries, invalidation by key prefix, `getNextPageParam` and the `retry` predicate.
- The create, update and delete feature-request hooks, and the query hooks of labels, settings and analytics, are not modelled. They only forward to the record functions that are modelled, plus list invalidations of the same kind as those proved for comments.
- The admin-email hooks (`useAdminEmails`, `useAddAdminEmail`, `useRemoveAdminEmail`) are not modelled: the record functions they call are not part of this model.
- Rendering, toasts, routing, internationalisation, date formatting and the theme provider (its colour conversion works in floating point) are not modelled.
- Sign-in and sign-out popups and the auth subscription are not modelled; each auth state change is an input event of `Auth.AuthSession.OnAuthStateChanged`.
- Store.AddDoc: the new id is any id longer than all ids in use, not a random 20-character id; only its freshness is relied on.
- AnalyticsApi.ActiveUserCounted: the start of a period is `now` minus whole days of 86 400 000 ms; daylight-saving shifts of `setDate` are not modelled.
- AnalyticsApi.GetActiveUsersAnalytics: the three counts, which the code runs with `Promise.all`, run one after the other.
- CreateRequestForm.SchemaError: lengths count characters, while the schema library counts UTF-16 code units.
- Text.ToLower: only ASCII letters change case.
- Text.ToUpper: only ASCII letters change case.
- Documents.NumberOr: a stored value that is truthy but not a number (such as the text "5") reads as 0, while `data.f || 0` would keep it; the typed records cannot hold such a value.
- Documents.FlagOr: a stored value that is truthy but not a boolean (such as a non-empty text) reads as false, while `data.f || false` would keep it and so treat it as true; the typed records cannot hold such a value.
- Documents.TimeOr: a stored value that is neither a timestamp nor a non-zero number (such as a date text, which `new Date` would parse) reads as `now`; date parsing is not modelled.
- Documents.TextOr: a stored value that is truthy but not text reads as the fallback, while `data.f || fallback` would keep it; the typed records cannot hold such a value.
- Documents.ListOr: a stored value that is truthy but not an array reads as `[]`, while `data.f || []` would keep it; the typed records cannot hold such a value.
- CommentApi.GetCommentsWithCursor: a zero limit, which the store rejects, is an error result rather than a thrown exception.
- SettingsApi.UpdateAppSettings: updates carry only the four branding fields the pages send.
- CommentApi.CreateComment: a missing author photo is written as an omitted field. The code passes `authorPhotoURL: undefined`, which the store accepts only when it is set to ignore undefined properties; with the default settings the write is rejected, so a user without a photo could not comment. The store's initialisation is not part of this model.
- CommentList.CommentBox.SubmitComment: sends the author photo through CommentApi.CreateComment and so rests on the same assumption about undefined properties.
- CommentList.Initials: the first character of each word and the two-character cut count characters, while the code indexes UTF-16 code units, so a word starting with a character outside the Basic Multilingual Plane (an emoji) gives the whole character here and half of a surrogate pair in the code.
- Providers.ShouldRetry: only the predicate is modelled; how the query library uses it is not.
