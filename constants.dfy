/** Application constants: the status lists, paging sizes, sort options and
    the names of the document-store collections. */
module Constants {

  import Seqs
  import opened Wrappers

  /** The seven statuses a feature request can be in. */
  datatype Status = Open | InProgress | Completed | WontDo | Considering | WillDo | Archived

  /** The status as it is stored and displayed. */
  function StatusName(s: Status): string {
    match s
    case Open => "Open"
    case InProgress => "In Progress"
    case Completed => "Completed"
    case WontDo => "Won't Do"
    case Considering => "Considering"
    case WillDo => "Will Do"
    case Archived => "Archived"
  }

  /** The status a stored name denotes, if it is one of the seven. */
  function ParseStatus(name: string): (r: Option<Status>)
    ensures r.Some? ==> StatusName(r.value) == name
  {
    if name == "Open" then Some(Open)
    else if name == "In Progress" then Some(InProgress)
    else if name == "Completed" then Some(Completed)
    else if name == "Won't Do" then Some(WontDo)
    else if name == "Considering" then Some(Considering)
    else if name == "Will Do" then Some(WillDo)
    else if name == "Archived" then Some(Archived)
    else None
  }

  /** Every status name reads back as its status, so distinct statuses have distinct names. */
  lemma StatusNameRoundTrip(s: Status)
    ensures ParseStatus(StatusName(s)) == Some(s)
    ensures forall t :: StatusName(t) == StatusName(s) ==> t == s
  {
    forall t | StatusName(t) == StatusName(s) ensures t == s {
      assert ParseStatus(StatusName(t)) == Some(t);
    }
  }

  const FeatureRequestStatuses: seq<Status> := [Open, InProgress, Completed]
  const AdminStatuses: seq<Status> := [WontDo, Considering, WillDo]
  const ArchivedStatus: Status := Archived
  const AllStatuses: seq<Status> := FeatureRequestStatuses + AdminStatuses + [ArchivedStatus]
  const PublicStatuses: seq<Status> := FeatureRequestStatuses + AdminStatuses

  /** Every status appears in the full list exactly once. */
  lemma AllStatusesExactlyOnce()
    ensures |AllStatuses| == 7
    ensures Seqs.NoDups(AllStatuses)
    ensures forall s: Status :: s in AllStatuses
  {
    assert AllStatuses == [Open, InProgress, Completed, WontDo, Considering, WillDo, Archived];
    forall s: Status ensures s in AllStatuses {
      match s
      case Open => assert AllStatuses[0] == s;
      case InProgress => assert AllStatuses[1] == s;
      case Completed => assert AllStatuses[2] == s;
      case WontDo => assert AllStatuses[3] == s;
      case Considering => assert AllStatuses[4] == s;
      case WillDo => assert AllStatuses[5] == s;
      case Archived => assert AllStatuses[6] == s;
    }
  }

  /** The public list is the full list with the archived status taken out. */
  lemma PublicStatusesWithoutArchived()
    ensures PublicStatuses == Seqs.RemoveAll(AllStatuses, ArchivedStatus)
    ensures forall s: Status :: s in PublicStatuses <==> s != Archived
  {
    Seqs.RemoveAllAppend(FeatureRequestStatuses + AdminStatuses, [ArchivedStatus], ArchivedStatus);
    Seqs.RemoveAllAbsent(FeatureRequestStatuses + AdminStatuses, ArchivedStatus);
  }

  /** The statuses users see and the statuses only admins set do not overlap. */
  lemma StatusGroupsDisjoint()
    ensures forall s :: s in FeatureRequestStatuses ==> s !in AdminStatuses
  {
  }

  /** A sort option: the value kept in the page state and the caption shown for it. */
  datatype SortOption = SortOption(value: string, caption: string)

  const SortOptions: seq<SortOption> := [SortOption("votes", "Most Upvoted"), SortOption("createdAt", "Newest First")]

  const UsersCollection: string := "users"
  const FeatureRequestsCollection: string := "featureRequests"
  const CommentsCollection: string := "comments"
  const AdminEmailsCollection: string := "adminEmails"
  const LabelsCollection: string := "labels"
  const AnalyticsCollection: string := "analytics"
  const SettingsCollection: string := "settings"

  const CollectionNames: seq<string> := [UsersCollection, FeatureRequestsCollection, CommentsCollection,
    AdminEmailsCollection, LabelsCollection, AnalyticsCollection, SettingsCollection]

  /** No two collections share a name, so no two entities share storage. */
  lemma CollectionNamesDistinct()
    ensures Seqs.NoDups(CollectionNames)
  {
    forall i, j | 0 <= i < j < |CollectionNames| ensures CollectionNames[i] != CollectionNames[j] {
      assert CollectionNames[i][0] != CollectionNames[j][0] || CollectionNames[i][1] != CollectionNames[j][1];
    }
  }
}
