/** The feature-requests page: the sort chosen by its value with a fallback to the first choice,
    the list query of the active status tab, the requests shown under each tab and the count on
    each tab's badge. */
module RequestsPage {

  import opened Wrappers
  import opened Types
  import Seqs
  import Constants
  import Documents
  import Store
  import Ordering
  import FeatureRequestApi

  /** A sort choice of the page: its value, its caption and the sort it applies. */
  datatype SortChoice = SortChoice(value: string, caption: string, sort: FeatureRequestSort)

  const SortChoices: seq<SortChoice> := [
    SortChoice("upvotes", "Most Upvoted", FeatureRequestSort(SortByVotes, Descending)),
    SortChoice("createdAt", "Newest First", FeatureRequestSort(SortByCreatedAt, Descending)),
    SortChoice("createdAt_asc", "Oldest First", FeatureRequestSort(SortByCreatedAt, Ascending))]

  const StatusTabs: seq<string> := ["Open", "In Progress", "Completed"]
  const InitialTab: string := "Open"
  const InitialSort: string := "upvotes"
  const PageLimit: nat := 12

  /** `find`: the position of the first choice with this value, if any. */
  function Find(choices: seq<SortChoice>, value: string): (r: Option<nat>)
    ensures r.Some? ==> r.value < |choices| && choices[r.value].value == value
    ensures r.Some? ==> forall k :: 0 <= k < r.value ==> choices[k].value != value
    ensures r.None? ==> forall k :: 0 <= k < |choices| ==> choices[k].value != value
  {
    if choices == [] then None
    else if choices[0].value == value then Some(0)
    else match Find(choices[1..], value)
      case None => None
      case Some(i) => Some(i + 1)
  }

  /** `currentSort`: the sort of the choice with this value, or of the first choice. */
  function CurrentSort(sortBy: string): FeatureRequestSort {
    match Find(SortChoices, sortBy)
    case Some(i) => SortChoices[i].sort
    case None => SortChoices[0].sort
  }

  /** `getSortLabel`: the label of the choice with this value, or "Most Upvoted". */
  function SortLabel(sortBy: string): string {
    match Find(SortChoices, sortBy)
    case Some(i) => SortChoices[i].caption
    case None => "Most Upvoted"
  }

  /** Each value selects its own sort; any other value sorts by votes, most first, and is labelled
      "Most Upvoted". */
  lemma CurrentSortOfEachValue(sortBy: string)
    ensures sortBy == "upvotes" ==> CurrentSort(sortBy) == FeatureRequestSort(SortByVotes, Descending)
    ensures sortBy == "createdAt" ==> CurrentSort(sortBy) == FeatureRequestSort(SortByCreatedAt, Descending)
    ensures sortBy == "createdAt_asc" ==> CurrentSort(sortBy) == FeatureRequestSort(SortByCreatedAt, Ascending)
    ensures sortBy !in {"upvotes", "createdAt", "createdAt_asc"} ==>
      CurrentSort(sortBy) == FeatureRequestSort(SortByVotes, Descending) && SortLabel(sortBy) == "Most Upvoted"
  {
    var r := Find(SortChoices, sortBy);
    if r.Some? {
      assert SortChoices[r.value].value == sortBy;
    }
  }

  /** The label on the sort button always names the sort applied: the two fallbacks agree. */
  lemma LabelNamesAppliedSort(sortBy: string)
    ensures exists i :: 0 <= i < |SortChoices| && SortChoices[i].sort == CurrentSort(sortBy) && SortChoices[i].caption == SortLabel(sortBy)
  {
    match Find(SortChoices, sortBy)
    case Some(i) =>
      assert SortChoices[i].sort == CurrentSort(sortBy) && SortChoices[i].caption == SortLabel(sortBy);
    case None =>
      assert SortChoices[0].sort == CurrentSort(sortBy) && SortChoices[0].caption == SortLabel(sortBy);
  }

  /** The tabs are the statuses every user sees, in their order. */
  lemma TabsAreBasicStatuses()
    ensures StatusTabs == Seqs.Map(Constants.FeatureRequestStatuses, Constants.StatusName)
  {
  }

  /** `queryParams`: the active tab's status, the current sort and pages of 12. */
  function QueryParams(activeTab: string, sortBy: string): (p: FeatureRequestsQuery)
    ensures p.filters.Some? && p.filters.value.status == Some(activeTab)
    ensures p.filters.value.labels.None? && p.sort == Some(CurrentSort(sortBy)) && p.limit == Some(PageLimit)
  {
    FeatureRequestsQuery(Some(FeatureRequestFilters(Some(activeTab), None, None, None)), Some(CurrentSort(sortBy)), None, Some(PageLimit))
  }

  /** On arrival the page asks for open requests, most upvoted first, 12 at a time. */
  lemma InitialQuery()
    ensures FeatureRequestApi.QueryOf(QueryParams(InitialTab, InitialSort))
         == Store.Query([Store.FieldEquals(Documents.Status, Documents.Str("Open"))],
                        Some(Ordering.OrderBy(Documents.Upvotes, Ordering.Desc)), Some(12), None)
  {
    CurrentSortOfEachValue(InitialSort);
  }

  /** The query of a tab: its status as the only condition, at most 12 rows. */
  lemma TabQuery(activeTab: string, sortBy: string)
    requires activeTab != ""
    ensures var q := FeatureRequestApi.QueryOf(QueryParams(activeTab, sortBy));
      q.wheres == [Store.FieldEquals(Documents.Status, Documents.Str(activeTab))] && q.limit == Some(PageLimit)
  {
  }

  /** A stored request whose status is a non-empty text converts to that status. */
  lemma StatusConverts(r: Documents.Row, status: string, now: int)
    requires status != "" && Documents.Status in r.data && r.data[Documents.Status] == Documents.Str(status)
    ensures FeatureRequestApi.Convert(r, now).status == status
  {
  }

  /** Every page the list loads holds at most 12 requests, all in the active tab's status. */
  lemma PageHoldsOnlyActiveTab(c: Store.Collection, activeTab: string, sortBy: string, cursor: Option<Documents.Row>, now: int)
    requires c.Valid() && activeTab != ""
    ensures var rows := FeatureRequestApi.PageRows(c, QueryParams(activeTab, sortBy), cursor);
      |rows| <= PageLimit
      && forall r :: r in rows ==> FeatureRequestApi.Convert(r, now).status == activeTab
  {
    var q := FeatureRequestApi.QueryOf(QueryParams(activeTab, sortBy)).(startAfter := cursor);
    var w := Store.FieldEquals(Documents.Status, Documents.Str(activeTab));
    TabQuery(activeTab, sortBy);
    var rows := Store.Run(c, q);
    assert rows == FeatureRequestApi.PageRows(c, QueryParams(activeTab, sortBy), cursor);
    forall r | r in rows ensures FeatureRequestApi.Convert(r, now).status == activeTab {
      assert Store.HoldsAll(q.wheres, r.data);
      assert Store.Holds(q.wheres[0], r.data);
      StatusConverts(r, activeTab, now);
    }
  }

  /** The requests loaded so far: every page's requests, page after page. */
  function Loaded(pages: seq<FeatureRequestApi.FeatureRequestPage>): seq<FeatureRequest> {
    Seqs.FlatMap(pages, (p: FeatureRequestApi.FeatureRequestPage) => p.featureRequests)
  }

  /** The requests shown under a tab: the loaded ones in its status, in order. */
  function TabContents(loaded: seq<FeatureRequest>, tab: string): (r: seq<FeatureRequest>)
    ensures forall fr :: fr in r <==> fr in loaded && fr.status == tab
  {
    Seqs.Filter(loaded, (fr: FeatureRequest) => fr.status == tab)
  }

  /** The count on a tab's badge. */
  function TabCount(loaded: seq<FeatureRequest>, tab: string): (n: nat)
    ensures n <= |loaded|
  {
    |TabContents(loaded, tab)|
  }

  /** When every page holds requests of one status, so does everything loaded. */
  lemma {:induction false} LoadedHaveStatus(pages: seq<FeatureRequestApi.FeatureRequestPage>, status: string)
    requires forall i, j :: 0 <= i < |pages| && 0 <= j < |pages[i].featureRequests| ==> pages[i].featureRequests[j].status == status
    ensures forall fr :: fr in Loaded(pages) ==> fr.status == status
  {
    if pages != [] {
      LoadedHaveStatus(pages[1..], status);
      assert Loaded(pages) == pages[0].featureRequests + Loaded(pages[1..]);
      forall fr | fr in pages[0].featureRequests ensures fr.status == status {
        var j :| 0 <= j < |pages[0].featureRequests| && pages[0].featureRequests[j] == fr;
      }
    }
  }

  /** A filter keeping every element gives back the sequence. */
  lemma {:induction false} FilterKeepsAll(loaded: seq<FeatureRequest>, tab: string)
    requires forall fr :: fr in loaded ==> fr.status == tab
    ensures TabContents(loaded, tab) == loaded
  {
    if loaded != [] {
      FilterKeepsAll(loaded[1..], tab);
      assert loaded[0] in loaded;
    }
  }

  /** A filter keeping no element gives nothing. */
  lemma {:induction false} FilterKeepsNone(loaded: seq<FeatureRequest>, tab: string)
    requires forall fr :: fr in loaded ==> fr.status != tab
    ensures TabContents(loaded, tab) == []
  {
    if loaded != [] {
      FilterKeepsNone(loaded[1..], tab);
      assert loaded[0] in loaded;
    }
  }

  /** Because the list is loaded for the active tab only, that tab shows everything loaded and
      every other tab's badge counts 0. */
  lemma OnlyActiveTabCounts(pages: seq<FeatureRequestApi.FeatureRequestPage>, activeTab: string, tab: string)
    requires forall i, j :: 0 <= i < |pages| && 0 <= j < |pages[i].featureRequests| ==> pages[i].featureRequests[j].status == activeTab
    ensures TabContents(Loaded(pages), activeTab) == Loaded(pages)
    ensures TabCount(Loaded(pages), activeTab) == |Loaded(pages)|
    ensures tab != activeTab ==> TabCount(Loaded(pages), tab) == 0
  {
    LoadedHaveStatus(pages, activeTab);
    FilterKeepsAll(Loaded(pages), activeTab);
    if tab != activeTab {
      FilterKeepsNone(Loaded(pages), tab);
    }
  }
}
