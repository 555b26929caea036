/** The application's records as values: what the converters produce and what
    the create/update operations take. Times are milliseconds since the epoch. */
module Types {

  import opened Wrappers

  /** A feature request after conversion from its stored document. */
  datatype FeatureRequest = FeatureRequest(
    id: string,
    title: string,
    description: string,
    status: string,
    upvotes: int,
    upvotedBy: seq<string>,
    labels: seq<string>,
    authorId: string,
    authorName: string,
    authorEmail: string,
    createdAt: int,
    updatedAt: int,
    commentsCount: int)

  datatype CreateFeatureRequestData = CreateFeatureRequestData(
    title: string, description: string, labels: Option<seq<string>>)

  datatype UpdateFeatureRequestData = UpdateFeatureRequestData(
    title: Option<string>, description: Option<string>, status: Option<string>, labels: Option<seq<string>>)

  /** List filters; `statuses` and `search` exist in the type but no query reads them. */
  datatype FeatureRequestFilters = FeatureRequestFilters(
    status: Option<string>, statuses: Option<seq<string>>, labels: Option<seq<string>>, search: Option<string>)

  datatype SortField = SortByVotes | SortByCreatedAt
  datatype SortDirection = Ascending | Descending
  datatype FeatureRequestSort = FeatureRequestSort(field: SortField, direction: SortDirection)

  /** The parameters of a feature-request list; `page` is carried but never read. */
  datatype FeatureRequestsQuery = FeatureRequestsQuery(
    filters: Option<FeatureRequestFilters>, sort: Option<FeatureRequestSort>, page: Option<int>, limit: Option<nat>)

  const NoParams: FeatureRequestsQuery := FeatureRequestsQuery(None, None, None, None)

  /** A comment after conversion; a missing photo URL converts to "". */
  datatype Comment = Comment(
    id: string,
    content: string,
    featureRequestId: string,
    authorId: string,
    authorName: string,
    authorEmail: string,
    authorPhotoURL: string,
    createdAt: int,
    updatedAt: int)

  datatype CreateCommentData = CreateCommentData(content: string, featureRequestId: string)
  datatype UpdateCommentData = UpdateCommentData(content: string)
  datatype CommentsQuery = CommentsQuery(featureRequestId: string, limit: Option<nat>, page: Option<int>)

  datatype Label = Label(
    id: string, name: string, backgroundColor: string, textColor: string,
    createdAt: int, createdBy: string, updatedAt: int)

  /** The colours are absent when a caller leaves them out, as the label admin page does. */
  datatype CreateLabelData = CreateLabelData(name: string, backgroundColor: Option<string>, textColor: Option<string>)
  datatype UpdateLabelData = UpdateLabelData(name: Option<string>, backgroundColor: Option<string>, textColor: Option<string>)

  /** A user record; `None` stands for `null` in the three identity fields. */
  datatype User = User(
    uid: string,
    email: Option<string>,
    displayName: Option<string>,
    photoURL: Option<string>,
    isAdmin: bool,
    createdAt: int,
    updatedAt: int,
    lastLoginAt: int)

  /** The identity fields a sign-in provides (a user record without flags or times). */
  datatype UserIdentity = UserIdentity(uid: string, email: Option<string>, displayName: Option<string>, photoURL: Option<string>)

  /** A partial user record, as `Partial<User>` without the key and the times. */
  datatype UserUpdates = UserUpdates(
    email: Option<Option<string>>, displayName: Option<Option<string>>, photoURL: Option<Option<string>>, isAdmin: Option<bool>)

  datatype AppSettings = AppSettings(
    projectName: string,
    tagline: string,
    primaryColor: string,
    defaultTheme: string,
    createdAt: int,
    updatedAt: int,
    updatedBy: string)

  /** A partial settings record holding the branding fields an update may carry. */
  datatype SettingsUpdates = SettingsUpdates(
    projectName: Option<string>, tagline: Option<string>, primaryColor: Option<string>, defaultTheme: Option<string>)

  const DefaultProjectName: string := "Feature Upvote"
  const DefaultTagline: string := "A feature request and upvoting platform for product teams"
  const DefaultPrimaryColor: string := "#3b82f6"
  const DefaultTheme: string := "system"

  datatype Period = Daily | Weekly | Monthly

  function PeriodName(p: Period): string {
    match p
    case Daily => "daily"
    case Weekly => "weekly"
    case Monthly => "monthly"
  }

  datatype AnalyticsCache = AnalyticsCache(
    id: string, kind: string, period: string, value: int, lastUpdated: int, expiresAt: int)

  datatype ActiveUsersAnalytics = ActiveUsersAnalytics(daily: int, weekly: int, monthly: int, lastUpdated: int)
}
