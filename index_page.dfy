/** The state of the `Index` page and its handlers. Each handler is one
    atomic transition; the effects that React runs after a change of their
    dependencies run inside the same transition: `filterAndSortUsers` after a
    change of the rows, the filters or the sort, and the write of the row
    ids to storage after a change of the rows. */
module IndexPage {
  import opened Seqs
  import opened Users
  import opened SavedOrder
  import opened FilterSort
  import opened Pagination
  import opened Reorder

  /** The choices of the "Rows per page" select. */
  predicate RowsChoice(n: nat) {
    n == 10 || n == 25 || n == 50
  }

  /** Every row on a page of the view is a row of the list that passes the
      filters, whatever the sort and whichever page. */
  lemma ShownRowsSelected(users: seq<User>, query: string, gender: string, country: string,
                          column: Option<Column>, direction: Option<Direction>, page: nat, rowsPerPage: nat)
    requires page >= 1
    ensures forall u :: u in PageSlice(View(users, query, gender, country, column, direction), page, rowsPerPage)
                     ==> u in users && Selected(u, query, gender, country)
  {
    var view := View(users, query, gender, country, column, direction);
    ViewIsView(users, query, gender, country, column, direction);
    ViewMembers(view, users, query, gender, country, column, direction);
    forall u | u in PageSlice(view, page, rowsPerPage) ensures u in view {
      var i :| 0 <= i < |PageSlice(view, page, rowsPerPage)| && PageSlice(view, page, rowsPerPage)[i] == u;
      assert u == view[StartIndex(page, rowsPerPage) + i];
    }
  }

  class Index {
    /** The canonical list, in the order the user arranged it. */
    var users: seq<User>
    /** The rows after search, filters and sort. */
    var filteredUsers: seq<User>
    var loading: bool
    var searchQuery: string
    var genderFilter: string
    var countryFilter: string
    var currentPage: nat
    var rowsPerPage: nat
    var sortColumn: Option<Column>
    var sortDirection: Option<Direction>
    var dragFromIndex: Option<nat>
    var dragOverIndex: Option<nat>
    /** The "userOrder" entry of local storage, parsed; `None` when it is
        missing, empty or does not parse as a list of ids. */
    var storedOrder: Option<seq<string>>

    ghost predicate Valid()
      reads this`rowsPerPage, this`currentPage, this`filteredUsers, this`users, this`searchQuery,
            this`genderFilter, this`countryFilter, this`sortColumn, this`sortDirection, this`storedOrder
    {
      && RowsChoice(rowsPerPage)
      && 1 <= currentPage <= TotalPages(|filteredUsers|, rowsPerPage)
      && SortConsistent(sortColumn, sortDirection)
      && ViewCurrent()
      && OrderStored()
    }

    /** The rows on show are the view of the current list, filters and sort. */
    ghost predicate ViewCurrent()
      reads this`filteredUsers, this`users, this`searchQuery, this`genderFilter,
            this`countryFilter, this`sortColumn, this`sortDirection
    {
      filteredUsers == View(users, searchQuery, genderFilter, countryFilter, sortColumn, sortDirection)
    }

    /** Once there are rows, storage holds their ids in list order. */
    ghost predicate OrderStored()
      reads this`users, this`storedOrder
    {
      |users| > 0 ==> storedOrder == Some(Ids(users))
    }

    /** The initial state of the component, with whatever storage holds. */
    constructor (stored: Option<seq<string>>)
      ensures Valid()
      ensures users == [] && filteredUsers == [] && loading
      ensures searchQuery == [] && genderFilter == "all" && countryFilter == "all"
      ensures currentPage == 1 && rowsPerPage == 10
      ensures sortColumn == None && sortDirection == None
      ensures dragFromIndex == None && dragOverIndex == None
      ensures storedOrder == stored
    {
      users, filteredUsers, loading := [], [], true;
      searchQuery, genderFilter, countryFilter := [], "all", "all";
      currentPage, rowsPerPage := 1, 10;
      sortColumn, sortDirection := None, None;
      dragFromIndex, dragOverIndex := None, None;
      storedOrder := stored;
    }

    /** `totalPages` */
    function PageCount(): (r: nat)
      reads this
      requires rowsPerPage > 0
      ensures r >= 1
    {
      TotalPages(|filteredUsers|, rowsPerPage)
    }

    /** `currentUsers`: the rows the table shows. */
    function CurrentUsers(): (r: seq<User>)
      reads this
      requires currentPage >= 1
      ensures |r| <= rowsPerPage
    {
      PageSlice(filteredUsers, currentPage, rowsPerPage)
    }

    /** `setUsers(next)` together with the two effects that depend on the
        rows: the view is recomputed (which returns to the first page), and a
        non-empty list has its ids written to storage. */
    method SetUsers(next: seq<User>)
      requires Valid()
      modifies this`users, this`filteredUsers, this`currentPage, this`storedOrder
      ensures Valid() && users == next && currentPage == 1
      ensures storedOrder == if |next| > 0 then Some(Ids(next)) else old(storedOrder)
    {
      var view := FilterAndSort(next, searchQuery, genderFilter, countryFilter, sortColumn, sortDirection);
      var stored := if |next| > 0 then Some(Ids(next)) else storedOrder;
      users, filteredUsers, currentPage, storedOrder := next, view, 1, stored;
    }

    /** `fetchUsers` once the request has settled: `None` when the request or
        its decoding failed, which leaves the list empty; otherwise the
        normalised batch merged with the stored order. */
    method Load(fetched: Option<seq<RawProfile>>)
      requires Valid()
      modifies this`users, this`filteredUsers, this`currentPage, this`storedOrder, this`loading
      ensures Valid() && !loading
      ensures fetched.None? ==>
                && users == old(users) && filteredUsers == old(filteredUsers)
                && currentPage == old(currentPage) && storedOrder == old(storedOrder)
      ensures fetched.Some? ==>
                && users == MergeSavedOrder(NormalizeAll(fetched.value), old(storedOrder))
                && currentPage == 1
      ensures fetched.Some? && old(storedOrder).None? ==> users == NormalizeAll(fetched.value)
      ensures fetched.Some? ==> storedOrder == if |users| > 0 then Some(Ids(users)) else old(storedOrder)
    {
      if fetched.Some? {
        var merged := MergeSavedOrder(NormalizeAll(fetched.value), storedOrder);
        SetUsers(merged);
      }
      loading := false;
    }

    /** The search box. The view is recomputed only when the value changes. */
    method SetSearchQuery(query: string)
      requires Valid()
      modifies this`searchQuery, this`filteredUsers, this`currentPage
      ensures Valid() && searchQuery == query
      ensures query != old(searchQuery) ==> currentPage == 1
      ensures query == old(searchQuery) ==> filteredUsers == old(filteredUsers) && currentPage == old(currentPage)
    {
      if query != searchQuery {
        var view := FilterAndSort(users, query, genderFilter, countryFilter, sortColumn, sortDirection);
        searchQuery, filteredUsers, currentPage := query, view, 1;
      }
    }

    /** The gender select. */
    method SetGenderFilter(gender: string)
      requires Valid()
      modifies this`genderFilter, this`filteredUsers, this`currentPage
      ensures Valid() && genderFilter == gender
      ensures gender != old(genderFilter) ==> currentPage == 1
      ensures gender == old(genderFilter) ==> filteredUsers == old(filteredUsers) && currentPage == old(currentPage)
    {
      if gender != genderFilter {
        var view := FilterAndSort(users, searchQuery, gender, countryFilter, sortColumn, sortDirection);
        genderFilter, filteredUsers, currentPage := gender, view, 1;
      }
    }

    /** The country select. */
    method SetCountryFilter(country: string)
      requires Valid()
      modifies this`countryFilter, this`filteredUsers, this`currentPage
      ensures Valid() && countryFilter == country
      ensures country != old(countryFilter) ==> currentPage == 1
      ensures country == old(countryFilter) ==> filteredUsers == old(filteredUsers) && currentPage == old(currentPage)
    {
      if country != countryFilter {
        var view := FilterAndSort(users, searchQuery, genderFilter, country, sortColumn, sortDirection);
        countryFilter, filteredUsers, currentPage := country, view, 1;
      }
    }

    /** `handleSort(column)`: every click changes the sort, so the view is
        always recomputed. */
    method HandleSort(column: Column)
      requires Valid()
      modifies this`sortColumn, this`sortDirection, this`filteredUsers, this`currentPage
      ensures Valid()
      ensures (sortColumn, sortDirection) == NextSort(old(sortColumn), old(sortDirection), column)
      ensures currentPage == 1
    {
      NextSortKeepsConsistent(sortColumn, sortDirection, column);
      var next := NextSort(sortColumn, sortDirection, column);
      var view := FilterAndSort(users, searchQuery, genderFilter, countryFilter, next.0, next.1);
      sortColumn, sortDirection, filteredUsers, currentPage := next.0, next.1, view, 1;
    }

    /** The "Rows per page" select. */
    method SetRowsPerPage(n: nat)
      requires Valid() && RowsChoice(n)
      modifies this`rowsPerPage, this`currentPage
      ensures Valid() && rowsPerPage == n && currentPage == 1
    {
      rowsPerPage := n;
      currentPage := 1;
    }

    method GoToFirstPage()
      requires Valid()
      modifies this`currentPage
      ensures Valid() && currentPage == 1
    {
      currentPage := 1;
    }

    method GoToPreviousPage()
      requires Valid()
      modifies this`currentPage
      ensures Valid() && currentPage == PreviousPage(old(currentPage))
    {
      NavigationStaysInRange(currentPage, PageCount());
      currentPage := PreviousPage(currentPage);
    }

    method GoToNextPage()
      requires Valid()
      modifies this`currentPage
      ensures Valid() && currentPage == NextPage(old(currentPage), PageCount())
    {
      NavigationStaysInRange(currentPage, PageCount());
      currentPage := NextPage(currentPage, PageCount());
    }

    method GoToLastPage()
      requires Valid()
      modifies this`currentPage
      ensures Valid() && currentPage == PageCount()
    {
      currentPage := PageCount();
    }

    /** `onDragStart`: the picked row is both the source and the target. */
    method OnDragStart(index: nat)
      modifies this`dragFromIndex, this`dragOverIndex
      ensures dragFromIndex == Some(index) && dragOverIndex == Some(index)
    {
      dragFromIndex, dragOverIndex := Some(index), Some(index);
    }

    /** `onDragEnter`: the row under the pointer becomes the target. */
    method OnDragEnter(index: nat)
      modifies this`dragOverIndex
      ensures dragOverIndex == Some(index)
    {
      dragOverIndex := Some(index);
    }

    /** `onDragEnd`: the gesture is over, whatever happened. */
    method OnDragEnd()
      modifies this`dragFromIndex, this`dragOverIndex
      ensures dragFromIndex == None && dragOverIndex == None
    {
      dragFromIndex, dragOverIndex := None, None;
    }

    /** `onDropAt(from, to)` over positions of the canonical list. Equal
        positions change nothing but the drag state; otherwise the row moves,
        its new order is stored, and the view is recomputed. */
    method OnDropAt(from: nat, to: nat)
      requires Valid() && from < |users| && to < |users|
      modifies this`users, this`storedOrder, this`filteredUsers, this`currentPage,
               this`dragFromIndex, this`dragOverIndex
      ensures Valid()
      ensures dragFromIndex == None && dragOverIndex == None
      ensures from == to ==>
                && users == old(users) && storedOrder == old(storedOrder)
                && filteredUsers == old(filteredUsers) && currentPage == old(currentPage)
      ensures from != to ==> users == Moved(old(users), from, to) && currentPage == 1
      ensures storedOrder == Some(Ids(users))
    {
      if from == to {
        dragFromIndex, dragOverIndex := None, None;
      } else {
        var copy := MoveCopy(users, from, to);
        SetUsers(copy);
        dragFromIndex, dragOverIndex := None, None;
      }
    }

    /** The `onDrop` of a row: the drop goes from the dragged row, or from the
        row itself when no drag was recorded, to that row. */
    method OnDrop(index: nat)
      requires Valid() && index < |users|
      requires dragFromIndex.Some? ==> dragFromIndex.value < |users|
      modifies this`users, this`storedOrder, this`filteredUsers, this`currentPage,
               this`dragFromIndex, this`dragOverIndex
      ensures Valid()
      ensures dragFromIndex == None && dragOverIndex == None
      ensures var from := if old(dragFromIndex).Some? then old(dragFromIndex).value else index;
        && users == Moved(old(users), from, index)
        && currentPage == (if from == index then old(currentPage) else 1)
        && (from == index ==> filteredUsers == old(filteredUsers))
    {
      var from := if dragFromIndex.Some? then dragFromIndex.value else index;
      OnDropAt(from, index);
      if from == index {
        MovedSame(old(users), index);
      }
    }
  }
}
