/** The page window over the filtered rows: the number of pages, the slice
    of the current page, the "Showing x to y" range, and the four navigation
    buttons. Pages are numbered from 1. */
module Pagination {

  function Min(a: int, b: int): int {
    if a <= b then a else b
  }

  function Max(a: int, b: int): int {
    if a >= b then a else b
  }

  /** `totalPages`: one page, plus one more for every further `rowsPerPage`
      rows or part of them. */
  function TotalPages(count: nat, rowsPerPage: nat): (r: nat)
    requires rowsPerPage > 0
    ensures r >= 1
    decreases count
  {
    if count <= rowsPerPage then 1 else 1 + TotalPages(count - rowsPerPage, rowsPerPage)
  }

  /** The page count is the fewest pages that hold every row, and never
      fewer than one: the pages hold all rows, and the last page is not empty
      unless it is the only one. */
  lemma {:induction false} TotalPagesBounds(count: nat, rowsPerPage: nat)
    requires rowsPerPage > 0
    ensures count <= TotalPages(count, rowsPerPage) * rowsPerPage
    ensures TotalPages(count, rowsPerPage) == 1 || (TotalPages(count, rowsPerPage) - 1) * rowsPerPage < count
    decreases count
  {
    if count > rowsPerPage {
      var t := TotalPages(count - rowsPerPage, rowsPerPage);
      TotalPagesBounds(count - rowsPerPage, rowsPerPage);
      assert TotalPages(count, rowsPerPage) * rowsPerPage == t * rowsPerPage + rowsPerPage;
      assert (TotalPages(count, rowsPerPage) - 1) * rowsPerPage == t * rowsPerPage;
    }
  }

  /** The page count is the source's `Math.max(1, Math.ceil(count / rowsPerPage))`. */
  lemma TotalPagesIsCeiling(count: nat, rowsPerPage: nat)
    requires rowsPerPage > 0
    ensures TotalPages(count, rowsPerPage) == if count == 0 then 1 else (count + rowsPerPage - 1) / rowsPerPage
  {
    var t := TotalPages(count, rowsPerPage);
    TotalPagesBounds(count, rowsPerPage);
    if count > 0 {
      var n := count + rowsPerPage - 1;
      assert (t - 1) * rowsPerPage < count;
      assert t * rowsPerPage <= n;
      assert n < (t + 1) * rowsPerPage;
      DivBetween(n, rowsPerPage, t);
    }
  }

  /** `n / k == t` when `t * k <= n < (t + 1) * k`. */
  lemma DivBetween(n: nat, k: nat, t: nat)
    requires k > 0 && t * k <= n < (t + 1) * k
    ensures n / k == t
  {
    var q, r := n / k, n % k;
    assert n == q * k + r && 0 <= r < k;
    if q < t {
      MulMonotone(q + 1, t, k);
    } else if q > t {
      MulMonotone(t + 1, q, k);
    }
  }

  /** `(currentPage - 1) * rowsPerPage` */
  function StartIndex(page: nat, rowsPerPage: nat): nat
    requires page >= 1
  {
    (page - 1) * rowsPerPage
  }

  /** `filteredUsers.slice(startIndex, startIndex + rowsPerPage)`: at most one
      page of rows, taken from the page's start, fewer on the last page. */
  function PageSlice<T>(s: seq<T>, page: nat, rowsPerPage: nat): (r: seq<T>)
    requires page >= 1
    ensures |r| <= rowsPerPage
    ensures |r| == Max(0, Min(rowsPerPage, |s| - StartIndex(page, rowsPerPage)))
    ensures forall i :: 0 <= i < |r| ==> r[i] == s[StartIndex(page, rowsPerPage) + i]
  {
    var start := StartIndex(page, rowsPerPage);
    if start >= |s| then [] else s[start..Min(start + rowsPerPage, |s|)]
  }

  /** The first number of "Showing x to y of n results". */
  function ShowingFrom(count: nat, page: nat, rowsPerPage: nat): nat
    requires page >= 1
  {
    if count == 0 then 0 else StartIndex(page, rowsPerPage) + 1
  }

  /** The second number of "Showing x to y of n results". */
  function ShowingTo(count: nat, page: nat, rowsPerPage: nat): int
    requires page >= 1
  {
    Min(StartIndex(page, rowsPerPage) + rowsPerPage, count)
  }

  lemma MulMonotone(a: nat, b: nat, k: nat)
    requires a <= b
    ensures a * k <= b * k
  {
  }

  lemma MulCancel(a: nat, b: nat, k: nat)
    requires a * k < b * k
    ensures a < b
  {
    if b <= a {
      MulMonotone(b, a, k);
    }
  }

  /** A page in range starts inside the rows, when there are any. */
  lemma StartInRange(count: nat, page: nat, rowsPerPage: nat)
    requires rowsPerPage > 0 && 1 <= page <= TotalPages(count, rowsPerPage) && count > 0
    ensures StartIndex(page, rowsPerPage) < count
  {
    var total := TotalPages(count, rowsPerPage);
    TotalPagesBounds(count, rowsPerPage);
    MulMonotone(page - 1, total - 1, rowsPerPage);
  }

  /** On a page in range the caption names exactly the rows the table shows:
      nothing when there are no rows, otherwise positions `x` to `y`
      (counted from 1) of the filtered rows. */
  lemma ShowingMatchesSlice<T>(s: seq<T>, page: nat, rowsPerPage: nat)
    requires rowsPerPage > 0 && 1 <= page <= TotalPages(|s|, rowsPerPage)
    ensures var from, to := ShowingFrom(|s|, page, rowsPerPage), ShowingTo(|s|, page, rowsPerPage);
      if |s| == 0 then from == 0 && to == 0 && PageSlice(s, page, rowsPerPage) == []
      else 1 <= from <= to <= |s| && PageSlice(s, page, rowsPerPage) == s[from - 1..to]
  {
    if |s| > 0 {
      StartInRange(|s|, page, rowsPerPage);
    } else {
      assert page == 1;
    }
  }

  /** Every row lies on some page in range: row `i` is entry `i % rowsPerPage`
      of page `i / rowsPerPage + 1`. */
  lemma RowOnPage<T>(s: seq<T>, rowsPerPage: nat, i: nat)
    requires rowsPerPage > 0 && i < |s|
    ensures var page := i / rowsPerPage + 1;
      && page <= TotalPages(|s|, rowsPerPage)
      && i % rowsPerPage < |PageSlice(s, page, rowsPerPage)|
      && PageSlice(s, page, rowsPerPage)[i % rowsPerPage] == s[i]
  {
    var page, total := i / rowsPerPage + 1, TotalPages(|s|, rowsPerPage);
    assert StartIndex(page, rowsPerPage) == (i / rowsPerPage) * rowsPerPage;
    assert i == (i / rowsPerPage) * rowsPerPage + i % rowsPerPage;
    TotalPagesBounds(|s|, rowsPerPage);
    MulCancel(page - 1, total, rowsPerPage);
  }

  /** Twenty-five rows at ten per page make three pages; the third shows
      rows 21 to 25, the last five. */
  lemma TwentyFiveRows<T>(s: seq<T>)
    requires |s| == 25
    ensures TotalPages(|s|, 10) == 3
    ensures PageSlice(s, 3, 10) == s[20..]
    ensures ShowingFrom(|s|, 3, 10) == 21 && ShowingTo(|s|, 3, 10) == 25
  {
    assert TotalPages(25, 10) == 1 + TotalPages(15, 10) == 2 + TotalPages(5, 10);
  }

  /** `goToPreviousPage`: `Math.max(1, prev - 1)` */
  function PreviousPage(page: nat): nat {
    Max(1, page - 1)
  }

  /** `goToNextPage`: `Math.min(totalPages, prev + 1)` */
  function NextPage(page: nat, totalPages: nat): nat {
    Min(totalPages, page + 1)
  }

  /** From a page in range every button leads to a page in range; previous
      stops at 1 and next stops at the last page. */
  lemma NavigationStaysInRange(page: nat, totalPages: nat)
    requires 1 <= page <= totalPages
    ensures 1 <= PreviousPage(page) <= totalPages
    ensures 1 <= NextPage(page, totalPages) <= totalPages
    ensures PreviousPage(page) == if page == 1 then 1 else page - 1
    ensures NextPage(page, totalPages) == if page == totalPages then totalPages else page + 1
  {
  }

  /** Next then previous, or previous then next, returns to the page you
      started from unless a boundary stopped the first move. */
  lemma NavigationUndo(page: nat, totalPages: nat)
    requires 1 <= page <= totalPages
    ensures page < totalPages ==> PreviousPage(NextPage(page, totalPages)) == page
    ensures page > 1 ==> NextPage(PreviousPage(page), totalPages) == page
  {
  }
}
