/**
 * The `TableComponent` view: its state, one method per event or effect
 * that changes the state, and the choice of what to render.
 */
module TableComponentModel {
  import opened Wrappers
  import opened Records
  import opened Search
  import opened Sorting
  import opened Pagination

  const FetchErrorMessage: string := "Failed to fetch data from api"

  /** What the single GET request produced: the parsed array, or any failure at all. */
  datatype FetchOutcome = Fetched(data: seq<Record>) | FetchFailed

  /** One clickable column title: its text, the key a click sorts by, and the arrow beside it. */
  datatype HeaderCell = HeaderCell(title: string, sortKey: Field, arrow: string)

  /** What the component returns from a render. */
  datatype Screen =
    | LoadingScreen
    | ErrorScreen(message: string)
    | TableScreen(
        query: string,
        headers: seq<HeaderCell>,
        rows: seq<Record>,
        noDataRow: bool,
        pageButtons: seq<int>,
        activePage: int)

  /** JavaScript truthiness of the `error` state: `null` and `""` are falsy. */
  predicate Truthy(error: Option<string>)
  {
    error.Some? && error.value != ""
  }

  /**
   * The three sortable column titles.  Each sorts by its own key, but all
   * three show the arrow of `applicationNO`.
   */
  function SortableHeaders(sort: SortState): (h: seq<HeaderCell>)
    ensures |h| == 3
    ensures h[0].sortKey == ApplicationNO && h[1].sortKey == ApplicantName && h[2].sortKey == ApplicationDate
    ensures forall c :: c in h ==> c.arrow == GetArrow(sort, ApplicationNO)
  {
    [ HeaderCell("Application No", ApplicationNO, GetArrow(sort, ApplicationNO)),
      HeaderCell("Applicant Name ", ApplicantName, GetArrow(sort, ApplicationNO)),
      HeaderCell("Application Date", ApplicationDate, GetArrow(sort, ApplicationNO)) ]
  }

  /**
   * After sorting by applicant name or by application date, no header shows
   * an up or down arrow, not even the clicked one; only sorting by
   * application number moves the arrows, and then it moves all three.
   */
  lemma HeaderArrowsFollowApplicationNO(sort: SortState, key: Field)
    ensures key != ApplicationNO ==>
      forall h :: h in SortableHeaders(ClickSort(sort, key)) ==> h.arrow == ArrowNone
    ensures key == ApplicationNO ==>
      forall h :: h in SortableHeaders(ClickSort(sort, key)) ==> h.arrow != ArrowNone
  {
  }

  /** The `error` state after a failure is truthy; the initial `null` is not. */
  lemma ErrorTruthiness()
    ensures Truthy(Some(FetchErrorMessage))
    ensures !Truthy(None)
  {
    assert FetchErrorMessage[0] == 'F';
  }

  /** What a render shows for the given state. */
  function RenderScreen(
    loading: bool, error: Option<string>, filterData: seq<Record>,
    currentPage: int, searchQuery: string, sort: SortState): (v: Screen)
    ensures v.LoadingScreen? <==> loading
    ensures v.ErrorScreen? <==> !loading && Truthy(error)
    ensures v.ErrorScreen? ==> v.message == error.value
    ensures v.TableScreen? ==>
      && |v.rows| <= ItemsPerPage
      && (forall r :: r in v.rows ==> r in filterData)
      && (v.noDataRow <==> v.rows == [])
      && v.headers == SortableHeaders(sort)
      && v.pageButtons == PageButtons(TotalPages(|filterData|))
      && (forall p :: p in v.pageButtons <==> 1 <= p <= TotalPages(|filterData|))
      && v.activePage == currentPage
      && v.query == searchQuery
    ensures v.TableScreen? && currentPage >= 1 ==>
      && v.rows == filterData[Min((currentPage - 1) * ItemsPerPage, |filterData|)..Min(currentPage * ItemsPerPage, |filterData|)]
      && (v.noDataRow <==> currentPage > TotalPages(|filterData|))
  {
    if loading then LoadingScreen
    else if Truthy(error) then ErrorScreen(error.value)
    else
      var rows := PageSlice(filterData, currentPage);
      assert currentPage >= 1 ==>
        && rows == filterData[Min((currentPage - 1) * ItemsPerPage, |filterData|)..Min(currentPage * ItemsPerPage, |filterData|)]
        && (rows == [] <==> currentPage > TotalPages(|filterData|))
      by {
        if currentPage >= 1 {
          PageSliceInRange(filterData, currentPage);
        }
      }
      TableScreen(searchQuery, SortableHeaders(sort), rows, rows == [],
                  PageButtons(TotalPages(|filterData|)), currentPage)
  }

  class TableComponent {
    var loading: bool
    var error: Option<string>
    var applicationData: seq<Record>
    var filterData: seq<Record>
    var currentPage: int
    var searchQuery: string
    var sort: SortState

    /**
     * The states the component can reach: nothing is loaded or failed while
     * loading, a failure leaves both lists empty, and the current page is 1
     * or one of the numbered page buttons.
     */
    ghost predicate Valid()
      reads this
    {
      && (loading ==> error == None && applicationData == [] && filterData == [])
      && (error.Some? ==> !loading && error == Some(FetchErrorMessage) && applicationData == [] && filterData == [])
      && 1 <= currentPage
      && (currentPage == 1 || currentPage <= TotalPages(|filterData|))
    }

    /** The displayed list holds exactly the records the current query selects, in some order. */
    ghost predicate Derived()
      reads this
    {
      multiset(filterData) == multiset(Filter(applicationData, searchQuery))
    }

    /** The initial state of every hook. */
    constructor ()
      ensures Valid()
      ensures loading && error == None
      ensures applicationData == [] && filterData == []
      ensures currentPage == 1 && searchQuery == "" && sort == InitialSort
    {
      loading := true;
      error := None;
      applicationData := [];
      filterData := [];
      currentPage := 1;
      searchQuery := "";
      sort := InitialSort;
    }

    /** The request has settled: store the array or the error, and stop loading either way. */
    method CompleteFetch(outcome: FetchOutcome)
      requires Valid() && loading
      modifies this
      ensures Valid() && !loading
      ensures outcome.Fetched? ==>
        applicationData == outcome.data && filterData == outcome.data && error == None
      ensures outcome.FetchFailed? ==>
        error == Some(FetchErrorMessage) && applicationData == [] && filterData == []
      ensures currentPage == old(currentPage) && searchQuery == old(searchQuery) && sort == old(sort)
    {
      match outcome {
        case Fetched(data) =>
          applicationData := data;
          filterData := data;
        case FetchFailed =>
          error := Some(FetchErrorMessage);
      }
      loading := false;
    }

    /** The search effect: re-filter the raw list by the query and go back to page 1. */
    method SearchEffect()
      requires Valid()
      modifies this
      ensures Valid() && Derived()
      ensures filterData == Filter(applicationData, searchQuery)
      ensures currentPage == 1
      ensures applicationData == old(applicationData) && searchQuery == old(searchQuery)
      ensures sort == old(sort) && loading == old(loading) && error == old(error)
    {
      filterData := Filter(applicationData, searchQuery);
      currentPage := 1;
    }

    /**
     * Typing in the search box.  A new value re-runs the search effect; the
     * same value changes no state, so nothing re-runs.  The sort state is
     * kept, although the re-filtered list is in raw order again.
     */
    method ChangeQuery(q: string)
      requires Valid()
      modifies this
      ensures Valid() && searchQuery == q
      ensures q != old(searchQuery) ==>
        Derived() && filterData == Filter(applicationData, q) && currentPage == 1
      ensures q == old(searchQuery) ==>
        filterData == old(filterData) && currentPage == old(currentPage)
      ensures applicationData == old(applicationData) && sort == old(sort)
      ensures loading == old(loading) && error == old(error)
    {
      if q != searchQuery {
        searchQuery := q;
        SearchEffect();
      }
    }

    /**
     * A page button was clicked.  The number is taken as it is, without a
     * clamp; only the buttons 1..totalPages call this.
     */
    method ChangePage(page: int)
      requires Valid() && page in PageButtons(TotalPages(|filterData|))
      modifies this`currentPage
      ensures Valid() && currentPage == page
    {
      currentPage := page;
    }

    /**
     * A sortable header was clicked: sort a copy of the displayed list by
     * `key`, show it, and remember the key and direction.  The raw list and
     * the page stay as they are.
     */
    method ClickHeader(key: Field)
      requires Valid()
      modifies this
      ensures Valid()
      ensures sort == ClickSort(old(sort), key)
      ensures multiset(filterData) == multiset(old(filterData))
      ensures Ordered(filterData, key, sort.direction)
      ensures old(Derived()) ==> Derived()
      ensures applicationData == old(applicationData) && currentPage == old(currentPage)
      ensures searchQuery == old(searchQuery) && loading == old(loading) && error == old(error)
    {
      var direction := NextDirection(sort, key);
      var sortedData := SortedCopy(filterData, key, direction);
      assert |sortedData| == |multiset(sortedData)| == |multiset(filterData)| == |filterData|;
      filterData := sortedData;
      sort := SortState(Some(key), direction);
    }

    /**
     * What the component renders in its current state: nothing but the
     * loading line while loading, nothing but the message once the request
     * failed, and otherwise the table with the current page of the list.
     */
    function Render(): (r: Screen)
      reads this
      ensures r.LoadingScreen? <==> loading
      ensures Valid() && !loading && error.Some? ==> r == ErrorScreen(FetchErrorMessage)
      ensures Valid() && !loading && error.None? ==>
        && r.TableScreen?
        && r.rows == PageSlice(filterData, currentPage)
        && r.headers == SortableHeaders(sort)
        && r.pageButtons == PageButtons(TotalPages(|filterData|))
    {
      ErrorTruthiness();
      RenderScreen(loading, error, filterData, currentPage, searchQuery, sort)
    }
  }

  /**
   * In every reachable state showing the table, the "No data available" row
   * appears only when the displayed list is empty: the page never lies past
   * the last page.
   */
  lemma NoDataRowOnlyWhenEmpty(c: TableComponent)
    requires c.Valid() && !c.loading && c.error.None?
    ensures c.Render().TableScreen?
    ensures c.Render().noDataRow <==> c.filterData == []
  {
  }

  /**
   * Mounting with a request that fails: the mount-time search effect runs on
   * the empty list, the request fails, and only the error message shows.
   */
  method MountWithFailure() returns (v: Screen)
    ensures v == ErrorScreen(FetchErrorMessage)
  {
    var c := new TableComponent();
    c.SearchEffect();
    c.CompleteFetch(FetchFailed);
    v := c.Render();
  }

  /**
   * Mounting with a request that succeeds: the array is stored, and because
   * the raw list changed the search effect runs again with the empty query,
   * so page 1 shows the first ten records that carry a searched property.
   */
  method MountWithSuccess(data: seq<Record>) returns (v: Screen)
    ensures v.TableScreen?
    ensures v.rows == PageSlice(Filter(data, ""), 1) && v.activePage == 1
    ensures forall r :: r in v.rows ==> r in data && exists k :: k in SearchedFields && Get(r, k).Some?
  {
    var c := new TableComponent();
    c.SearchEffect();
    c.CompleteFetch(Fetched(data));
    c.SearchEffect();
    v := c.Render();
    forall r | r in v.rows
      ensures exists k :: k in SearchedFields && Get(r, k).Some?
    {
      EmptyQueryMatches(r);
    }
  }

  /**
   * Sort by a key twice, then search: the second click reverses the
   * direction, and the search re-filters from the raw list, so the sorted
   * order is gone while the sort state stays.
   */
  method SortTwiceThenSearch(data: seq<Record>, key: Field, q: string)
    returns (sortedView: seq<Record>, c: TableComponent)
    requires q != ""
    ensures multiset(sortedView) == multiset(Filter(data, ""))
    ensures Ordered(sortedView, key, Desc)
    ensures c.sort == SortState(Some(key), Desc)
    ensures c.filterData == Filter(data, q)
    ensures c.currentPage == 1
  {
    c := new TableComponent();
    c.SearchEffect();
    c.CompleteFetch(Fetched(data));
    c.SearchEffect();
    c.ClickHeader(key);
    assert c.sort == SortState(Some(key), Asc);
    c.ClickHeader(key);
    sortedView := c.filterData;
    c.ChangeQuery(q);
  }
}
