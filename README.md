# User directory page: list pipeline

A model of the data pipeline behind the `Index` page of the user directory.
The page fetches a batch of random profiles and normalises them into table
rows. It re-applies a row order saved in local storage. Then it filters the
rows by a search box, a gender select and a country select, optionally sorts
them by name, country or age, and shows them a page at a time. Rows can be
reordered by drag and drop, and the new order is saved again.

The model has nine modules, one file each:

- `Seqs` (`seqs.dfy`): an option type, the order-keeping `Filter` that
  `Array.prototype.filter` performs, subsequences, and duplicate-freedom.
- `Text` (`text.dfy`): ASCII `toLowerCase`/`toUpperCase`, the capitalisation
  of the gender, `includes`, and the code-point order used for strings.
- `Sorting` (`sorting.dfy`): the stable sort of `Array.prototype.sort`, as
  insertion sort on sequences, proved to give a sorted permutation.
- `Users` (`users.dfy`): the raw profile, the `User` row, normalisation, and
  the distinct sorted country list of the country select.
- `SavedOrder` (`saved_order.dfy`): the merge of a fetched batch with the
  saved id order.
- `FilterSort` (`filter_sort.dfy`): the three filters, the view they define
  with the optional sort, the staged `filterAndSortUsers` method, and the
  three-state sort header.
- `Pagination` (`pagination.dfy`): page count, page slice, the "Showing x to
  y" caption, and the four navigation buttons.
- `Reorder` (`reorder.dfy`): the splice move of `onDropAt`, done on a fresh
  array copy of the list.
- `IndexPage` (`index_page.dfy`): the component as a class whose fields are
  its state cells and whose methods are its handlers.

`Index.Valid()` is the class invariant. It says:

- the rows on show are the view of the list under the current filters and
  sort;
- the page is in range and the page size is one of the offered sizes;
- the sort column and direction are set or cleared together;
- once there are rows, storage holds their ids in list order.

Every handler keeps it. A handler is one atomic transition. The effects
React runs after a state change run inside that transition:

- the recompute of the view (which returns to page 1) after a change of the
  rows, a filter or the sort;
- the write of the ids to storage after a change of the rows.

`Index.SetUsers` is `setUsers` together with those two effects. Loading and
dropping both go through it.

## Model

| member | source | states |
|---|---|---|
| Users.Normalize | client/pages/Index.tsx:52-60 | id, e-mail, country, age and picture are copied; the name is first, a space, and last; the gender keeps its length, with only the first character upper-cased |
| Users.NormalizeAll | client/pages/Index.tsx:52-60 | the batch is mapped one to one and in order |
| Users.NormalizeKeepsGenderCaseless | client/pages/Index.tsx:56 | capitalising the gender does not change its lower-cased form, so the case-insensitive gender filter treats raw and normalised rows alike |
| Text.Capitalize | client/pages/Index.tsx:56 | same length; the first character upper-cased and the rest unchanged; the empty string stays empty |
| Text.LowerOfCapitalize | client/pages/Index.tsx:56 | lower-casing undoes the capitalisation of the first character |
| Text.IncludesIffSplit | client/pages/Index.tsx:94-95 | `includes` holds exactly when the text splits into a prefix, the needle and a suffix |
| Text.StrLeTotal | client/pages/Index.tsx:113 | any two strings are comparable in the string order |
| Text.StrLeTrans | client/pages/Index.tsx:113 | the string order is transitive |
| Text.StrLeAntisymmetric | client/pages/Index.tsx:113 | only equal strings are ordered both ways |
| SavedOrder.Find | client/pages/Index.tsx:68 | the row found is the first row of the batch with that id; nothing is found only when no row has that id |
| SavedOrder.OrderedIds | client/pages/Index.tsx:67-69 | the ids of the leading part are the saved ids that name a fetched row, in saved order, unknown ids skipped |
| SavedOrder.OrderedMember | client/pages/Index.tsx:67-69 | every row of the leading part is a fetched row whose id is saved |
| SavedOrder.OrderedCount | client/pages/Index.tsx:67-69 | with unique fetched ids, a row occurs in the leading part once per saved occurrence of its id |
| SavedOrder.OrderedUnknown | client/pages/Index.tsx:67-69 | a saved order naming no fetched id gives an empty leading part |
| SavedOrder.OrderedAll | client/pages/Index.tsx:67-69 | looking up the ids of rows of the batch (ids unique) gives those rows back, in order |
| SavedOrder.MergeIsPermutation | client/pages/Index.tsx:67-72 | with unique fetched ids and a saved order without repeats, the merged list is a rearrangement of the batch: no row lost or doubled |
| SavedOrder.MergeLayout | client/pages/Index.tsx:67-72 | the merged list is the saved-and-known ids' rows in saved order, followed by exactly the rows whose id is not saved, in fetch order |
| SavedOrder.MergeWithUnknownIds | client/pages/Index.tsx:63-81 | a saved order naming none of the fetched ids (an empty one included) leaves the fetch order unchanged |
| SavedOrder.MergeRestoresSavedOrder | client/pages/Index.tsx:67-72 | merging a rearrangement of the batch with the saved ids of that rearrangement gives the rearrangement back: a saved order survives a reload of the same rows |
| Users.IdsCons | client/pages/Index.tsx:195 | the ids of a row followed by more rows are its id followed by theirs |
| Users.SameIdSameUser | client/pages/Index.tsx:68 | with unique ids, a row is determined by its id |
| Users.UniqueIdsCount | client/pages/Index.tsx:67-72 | with unique ids every row occurs exactly once |
| Users.UniqueIdsNoDup | client/pages/Index.tsx:67-72 | rows with distinct ids are distinct rows |
| Users.Distinct | client/pages/Index.tsx:140 | `Array.from(new Set(..))` repeats nothing and has exactly the values of its input |
| Users.StrLeIsTotalPreorder | client/pages/Index.tsx:140 | the default sort order of strings is a total preorder |
| Users.CountriesHas | client/pages/Index.tsx:140 | a country is in the mapped list exactly when some row has it |
| Users.UniqueCountriesSpec | client/pages/Index.tsx:140 | the country list names every country of the rows and nothing else, each once, in increasing order |
| Seqs.Filter | client/pages/Index.tsx:92-106 | a filter never lengthens its input |
| Seqs.FilterIsSubsequence | client/pages/Index.tsx:92-106 | a filter keeps the relative order of the rows it keeps |
| Seqs.FilterMembers | client/pages/Index.tsx:92-106 | a row is kept exactly when it occurs and passes the test |
| Seqs.FilterCount | client/pages/Index.tsx:92-106 | each kept row occurs as often as before; each dropped row not at all |
| Seqs.FilterFilter | client/pages/Index.tsx:92-106 | two filters in a row are one filter by the conjunction of their tests |
| Seqs.FilterCommutes | client/pages/Index.tsx:100-106 | two filters may run in either order |
| Seqs.FilterAll | client/pages/Index.tsx:67-72 | a filter every row passes changes nothing |
| Seqs.FilterNone | client/pages/Index.tsx:67-72 | a filter no row passes yields nothing |
| FilterSort.VisibleSpec | client/pages/Index.tsx:89-106 | the filtered rows keep their order from the list and are exactly the rows passing the search, gender and country tests (an empty query or "all" switches its test off) |
| FilterSort.SearchStage | client/pages/Index.tsx:92-98 | the search stage narrows by the search test, or keeps everything for an empty query |
| FilterSort.GenderStage | client/pages/Index.tsx:100-102 | the gender stage narrows the search result by the gender test, unless the select is "all" |
| FilterSort.CountryStage | client/pages/Index.tsx:104-106 | the country stage narrows the previous result by the country test to the filtered rows, unless the select is "all" |
| FilterSort.ComparatorIsTotalPreorder | client/pages/Index.tsx:109-119 | for every column and direction the comparator is total and transitive |
| Sorting.InsertPermutation | client/pages/Index.tsx:108-120 | inserting adds exactly the inserted row |
| Sorting.InsertSorted | client/pages/Index.tsx:108-120 | inserting into a sorted list keeps it sorted |
| Sorting.SortBySorted | client/pages/Index.tsx:108-120 | the sort yields a permutation of its input that is sorted by the comparator |
| FilterSort.ViewIsView | client/pages/Index.tsx:89-124 | with a column and a direction, the view is a sorted permutation of the filtered rows; otherwise it is the filtered rows in list order |
| FilterSort.ViewMembers | client/pages/Index.tsx:89-124 | whatever the sort, a view holds exactly the rows of the list that pass the filters |
| FilterSort.FilterAndSort | client/pages/Index.tsx:89-121 | the staged filtering and the in-place sort compute the view |
| FilterSort.GenderCountryCommute | client/pages/Index.tsx:100-106 | the gender and the country filters may run in either order |
| FilterSort.UnmatchedQueryShowsNothing | client/pages/Index.tsx:92-124 | a non-empty query that matches no row leaves the view empty, whatever the other filters and the sort, and the page count is then one for every page size |
| FilterSort.NextSortKeepsConsistent | client/pages/Index.tsx:126-138 | a header click keeps column and direction set or cleared together and always changes the sort |
| FilterSort.NextSortCycle | client/pages/Index.tsx:126-138 | three clicks on one header go to ascending, descending and unsorted in turn, and come back to the start |
| Pagination.TotalPages | client/pages/Index.tsx:204 | the page count is at least one |
| Pagination.TotalPagesBounds | client/pages/Index.tsx:204 | the pages hold every row, and the last page is empty only when it is the only one |
| Pagination.TotalPagesIsCeiling | client/pages/Index.tsx:204 | the page count is one for no rows, otherwise the rows divided by the page size, rounded up |
| Pagination.DivBetween | client/pages/Index.tsx:204 | integer division is pinned down by bounds on the quotient |
| Pagination.PageSlice | client/pages/Index.tsx:205-207 | the slice holds at most one page; it holds the rows from the page start up to the end of the page or of the list |
| Pagination.StartInRange | client/pages/Index.tsx:204-205 | a page in range starts inside the rows when there are any |
| Pagination.ShowingMatchesSlice | client/pages/Index.tsx:454 | the caption is "0 to 0" for no rows; otherwise it names, counted from one, exactly the rows the page shows |
| Pagination.RowOnPage | client/pages/Index.tsx:204-207 | every row is on a page in range, at the entry given by its position modulo the page size |
| Pagination.TwentyFiveRows | client/pages/Index.tsx:204-207 | twenty-five rows at ten per page make three pages, and the third shows rows 21 to 25 |
| Pagination.NavigationStaysInRange | client/pages/Index.tsx:209-212 | from a page in range, previous and next stay in range; previous stops at 1 and next at the last page |
| Pagination.NavigationUndo | client/pages/Index.tsx:210-211 | next then previous, or previous then next, returns to the start unless a boundary stopped the first move |
| Reorder.RemoveAt | client/pages/Index.tsx:192 | removing one row shortens the list by one |
| Reorder.Moved | client/pages/Index.tsx:191-193 | a move keeps the length |
| Reorder.MovedAt | client/pages/Index.tsx:191-193 | after a move the row lands at the target; the rows between the two positions shift by one towards the source; the others stay |
| Reorder.MovedSpec | client/pages/Index.tsx:191-193 | a move keeps the rows, puts the moved row at the target, and keeps the relative order of all other rows |
| Reorder.MovedSame | client/pages/Index.tsx:183-188 | a move onto the same position changes nothing |
| Reorder.MovedInverse | client/pages/Index.tsx:191-193 | moving the row back undoes the move |
| Reorder.MoveCopy | client/pages/Index.tsx:190-197 | copying the list into an array and shifting the rows between the positions computes the move |
| SavedOrder.Ordered | client/pages/Index.tsx:67-69 | the rows the saved ids name, in saved order, unknown ids skipped; its meaning is stated by `OrderedIds`, `OrderedMember` and `OrderedCount` |
| SavedOrder.Remaining | client/pages/Index.tsx:70 | the fetched rows whose id is not saved, in fetch order; its meaning is stated by `MergeLayout` |
| SavedOrder.MergeSavedOrder | client/pages/Index.tsx:62-81 | the fetched rows when nothing usable is stored, else the named rows followed by the others; its meaning is stated by `MergeIsPermutation`, `MergeLayout`, `MergeWithUnknownIds` and `MergeRestoresSavedOrder` |
| FilterSort.MatchesSearch | client/pages/Index.tsx:92-98 | the lower-cased query occurs in the lower-cased name or e-mail |
| FilterSort.MatchesGender | client/pages/Index.tsx:100-102 | the genders are equal once lower-cased |
| FilterSort.MatchesCountry | client/pages/Index.tsx:104-106 | the countries are equal |
| FilterSort.Selected | client/pages/Index.tsx:92-106 | a row passes all three tests, an empty query or "all" switching its test off; used by `VisibleSpec` and `ViewMembers` |
| FilterSort.Visible | client/pages/Index.tsx:89-106 | the rows that pass the filters, in list order; its meaning is stated by `VisibleSpec` |
| FilterSort.KeyLe | client/pages/Index.tsx:109-118 | the string order on names or countries, numeric order on ages |
| FilterSort.Comparator | client/pages/Index.tsx:108-120 | the column order, reversed for "desc"; a total preorder by `ComparatorIsTotalPreorder` |
| FilterSort.View | client/pages/Index.tsx:89-124 | the filtered rows, sorted when a column and a direction are set; its meaning is stated by `ViewIsView` and `ViewMembers` |
| FilterSort.NextSort | client/pages/Index.tsx:126-138 | the header state after a click; its meaning is stated by `NextSortKeepsConsistent` and `NextSortCycle` |
| Sorting.Insert | client/pages/Index.tsx:108-120 | one step of the stable sort; its meaning is stated by `InsertPermutation` and `InsertSorted` |
| Sorting.SortBy | client/pages/Index.tsx:108-120 | the stable sort by a comparator; its meaning is stated by `SortBySorted` |
| Users.Countries | client/pages/Index.tsx:140 | the country of each row, in order; its meaning is stated by `CountriesHas` |
| Users.UniqueCountries | client/pages/Index.tsx:140 | the distinct countries, sorted; its meaning is stated by `UniqueCountriesSpec` |
| Users.Ids | client/pages/Index.tsx:195 | the id of each row, in order, as written to storage (also at line 216); used by `OrderedIds`, `MergeRestoresSavedOrder` and the storage part of the class invariant |
| Pagination.StartIndex | client/pages/Index.tsx:205 | the position of the first row of a page; used by `PageSlice` and `StartInRange` |
| Pagination.ShowingFrom | client/pages/Index.tsx:454 | the first number of the caption; its meaning is stated by `ShowingMatchesSlice` |
| Pagination.ShowingTo | client/pages/Index.tsx:454 | the second number of the caption; its meaning is stated by `ShowingMatchesSlice` |
| Pagination.PreviousPage | client/pages/Index.tsx:210 | one page back, not below 1; its meaning is stated by `NavigationStaysInRange` and `NavigationUndo` |
| Pagination.NextPage | client/pages/Index.tsx:211 | one page on, not past the last; its meaning is stated by `NavigationStaysInRange` and `NavigationUndo` |
| Text.UpperChar | client/pages/Index.tsx:56 | ASCII upper-casing of one character; used by `Capitalize` |
| Text.Lower | client/pages/Index.tsx:94-95 | ASCII lower-casing of a string; its interplay with capitalisation is `LowerOfCapitalize` |
| Text.Includes | client/pages/Index.tsx:94-95 | the needle occurs at some position of the text; its meaning is stated by `IncludesIffSplit` |
| Text.StrLe | client/pages/Index.tsx:113 | code-point lexicographic order; total, transitive and antisymmetric by `StrLeTotal`, `StrLeTrans` and `StrLeAntisymmetric` |
| IndexPage.RowsChoice | client/pages/Index.tsx:469-471 | the page sizes the select offers: 10, 25 and 50; part of the class invariant |
| IndexPage.ShownRowsSelected | client/pages/Index.tsx:89-124 | every row on any page of the view is a row of the list that passes the filters |
| IndexPage.Index.constructor | client/pages/Index.tsx:27-36 | the initial state cells: no rows, loading, empty search, "all" filters, page 1 of 10 rows, no sort, no drag; the invariant holds |
| IndexPage.Index.PageCount | client/pages/Index.tsx:204 | the page count of the view is at least one |
| IndexPage.Index.CurrentUsers | client/pages/Index.tsx:205-207 | the current page holds at most one page of rows |
| IndexPage.Index.SetUsers | client/pages/Index.tsx:43-45 | the new list is installed, the view is recomputed on page 1, a non-empty list's ids are stored, and the invariant is kept |
| IndexPage.Index.Load | client/pages/Index.tsx:46-86 | a failed fetch keeps the list; a batch becomes the normalised rows merged with the stored order (in fetch order when nothing is stored), on page 1; storage then holds the new ids, or stays as it was when the batch is empty; loading ends either way |
| IndexPage.Index.SetSearchQuery | client/pages/Index.tsx:245 | a new query recomputes the view and returns to page 1; the same query changes nothing |
| IndexPage.Index.SetGenderFilter | client/pages/Index.tsx:255 | a new gender recomputes the view and returns to page 1; the same gender changes nothing |
| IndexPage.Index.SetCountryFilter | client/pages/Index.tsx:269 | a new country recomputes the view and returns to page 1; the same country changes nothing |
| IndexPage.Index.HandleSort | client/pages/Index.tsx:126-138 | the sort moves to the next header state and the view is recomputed on page 1 |
| IndexPage.Index.SetRowsPerPage | client/pages/Index.tsx:463-466 | an offered page size is set and the page returns to 1 |
| IndexPage.Index.GoToFirstPage | client/pages/Index.tsx:209 | the page becomes 1 |
| IndexPage.Index.GoToPreviousPage | client/pages/Index.tsx:210 | the page goes back one, stopping at 1 |
| IndexPage.Index.GoToNextPage | client/pages/Index.tsx:211 | the page goes forward one, stopping at the last page |
| IndexPage.Index.GoToLastPage | client/pages/Index.tsx:212 | the page becomes the last page |
| IndexPage.Index.OnDragStart | client/pages/Index.tsx:147-149 | the picked row is both the drag source and the drop target |
| IndexPage.Index.OnDragEnter | client/pages/Index.tsx:167-169 | the entered row becomes the drop target |
| IndexPage.Index.OnDragEnd | client/pages/Index.tsx:178-181 | both drag indices are cleared |
| IndexPage.Index.OnDropAt | client/pages/Index.tsx:183-202 | equal positions clear only the drag state; otherwise the row moves, the new id order is stored, the view is recomputed on page 1, and the drag state is cleared |
| IndexPage.Index.OnDrop | client/pages/Index.tsx:335 | a drop moves the dragged row, or the row itself when no drag was recorded, to the drop row; a drop onto the dragged row itself keeps the page and the rows on show, any other drop returns to page 1 |

## Left out

- The network request and JSON decoding of the response are not modelled: `Load` takes the decoded batch, or `None` when the request or decoding failed.
- Local storage is the field `storedOrder`, holding the parsed list of ids. `None` stands for every entry that leaves the fetch order as it is: a missing or empty entry, one that does not parse, and one that parses to something other than an array (such as `null`, `{}` or `5`, on which `order.map` throws and the catch keeps the fetch order). An array with entries that are not strings behaves like the array of its string entries, since a non-string entry never equals an id; such an array is `Some` of its strings. Reading storage, `JSON.parse`/`JSON.stringify`, and the swallowed storage exceptions are not modelled.
- React scheduling (render timing, batching, the order of effects) is not modelled: each handler is one atomic transition, and the effects on the rows, filters and sort run inside it. An effect runs only when one of its dependencies really changed, as React skips a state update to an equal value.
- `toLowerCase`/`toUpperCase` are modelled on ASCII letters only; Unicode case mapping is not modelled.
- `localeCompare` is modelled as code-point lexicographic order, a total order; locale collation is not modelled. The default `sort()` of the country list compares UTF-16 code units; code-point order agrees with it inside the Basic Multilingual Plane but not for characters outside it (a character above U+FFFF sorts before U+E000 to U+FFFF in code-unit order, after them in code-point order), so the country order is modelled only for countries written within that plane. Only sortedness and permutation are claimed of the sort, not stability, although the insertion sort that models it is stable.
- FilterSort.FilterAndSort: the engine's in-place `result.sort` is modelled by the insertion sort on a sequence, not as an in-place array sort; the contract is that the result equals the view.
- The drop indices of the table rows are positions in the filtered, sorted view (page start plus row index), while `onDropAt` splices the unfiltered list. The model takes them as positions of the unfiltered list and proves nothing about drops while a filter or sort is active.
- IndexPage.Index.Load: the contract states the new list as the merge; that the merge loses and doubles no row is the separate lemma `MergeIsPermutation`, which needs unique fetched ids and a saved order without repeats.
- IndexPage.Index.OnDropAt: the contract states the new list as `Moved` of the old; that a move keeps the rows, lands the row at the target and keeps the others in order is the separate lemma `MovedSpec`.
- Out-of-range drop positions are excluded by a precondition. JavaScript's `splice` does define them (nothing is removed and `undefined` is inserted), but no call can make them: every call site (lines 335 and 406) passes the position of a rendered row, which lies below the number of rows.
- The drag-image cloning, `dataTransfer`, `setTimeout`, `onDragOver`, hover state, all markup and styling are not modelled.
- `shared/api.ts` is not part of this model: it declares types only, and the page does not use them.
