/** `filterAndSortUsers` and `handleSort`: the search, gender and country
    filters, the optional column sort, and the three-state sort header. */
module FilterSort {
  import opened Seqs
  import opened Text
  import opened Sorting
  import opened Users
  import opened Pagination

  datatype Column = Name | Country | Age
  datatype Direction = Asc | Desc

  /** Case-insensitive substring match of the query in the name or the e-mail. */
  predicate MatchesSearch(u: User, query: string) {
    Includes(Lower(u.name), Lower(query)) || Includes(Lower(u.email), Lower(query))
  }

  /** Case-insensitive equality of the genders. */
  predicate MatchesGender(u: User, gender: string) {
    Lower(u.gender) == Lower(gender)
  }

  /** Exact equality of the countries. */
  predicate MatchesCountry(u: User, country: string) {
    u.country == country
  }

  /** A row is shown when it passes all three tests; an empty query and the
      value "all" switch their test off. */
  predicate Selected(u: User, query: string, gender: string, country: string) {
    && (query == [] || MatchesSearch(u, query))
    && (gender == "all" || MatchesGender(u, gender))
    && (country == "all" || MatchesCountry(u, country))
  }

  function SelectedTest(query: string, gender: string, country: string): User -> bool {
    (u: User) => Selected(u, query, gender, country)
  }

  /** The rows that pass the filters, in canonical order: the reference the
      staged filtering is proved against. */
  function Visible(users: seq<User>, query: string, gender: string, country: string): seq<User> {
    Filter(users, SelectedTest(query, gender, country))
  }

  /** `a` is not after `b` in the column's ascending order: `localeCompare`
      for the text columns, numeric order for the age. */
  predicate KeyLe(column: Column, a: User, b: User) {
    match column
    case Name => StrLe(a.name, b.name)
    case Country => StrLe(a.country, b.country)
    case Age => a.age <= b.age
  }

  /** The comparator given to `sort`: the column order, reversed for "desc". */
  function Comparator(column: Column, direction: Direction): (User, User) -> bool {
    (a: User, b: User) =>
      match direction
      case Asc => KeyLe(column, a, b)
      case Desc => KeyLe(column, b, a)
  }

  lemma ComparatorIsTotalPreorder(column: Column, direction: Direction)
    ensures TotalPreorder(Comparator(column, direction))
  {
    var le := Comparator(column, direction);
    forall a, b ensures le(a, b) || le(b, a) {
      StrLeTotal(a.name, b.name);
      StrLeTotal(a.country, b.country);
    }
    forall x, y, z | StrLe(x, y) && StrLe(y, z) ensures StrLe(x, z) {
      StrLeTrans(x, y, z);
    }
  }

  /** The rows the page shows for the given filters and sort: the visible
      rows, put through the stable sort when a column and a direction are set. */
  function View(users: seq<User>, query: string, gender: string, country: string,
                column: Option<Column>, direction: Option<Direction>): seq<User>
  {
    if column.Some? && direction.Some? then
      SortBy(Visible(users, query, gender, country), Comparator(column.value, direction.value))
    else
      Visible(users, query, gender, country)
  }

  /** What the page may show for the given filters and sort: with a column
      and a direction, a rearrangement of the visible rows sorted by the
      comparator; otherwise the visible rows in canonical order. */
  ghost predicate IsView(result: seq<User>, users: seq<User>, query: string, gender: string,
                         country: string, column: Option<Column>, direction: Option<Direction>)
  {
    if column.Some? && direction.Some? then
      && multiset(result) == multiset(Visible(users, query, gender, country))
      && SortedBy(result, Comparator(column.value, direction.value))
    else
      result == Visible(users, query, gender, country)
  }

  function SearchTest(query: string): User -> bool {
    (u: User) => MatchesSearch(u, query)
  }

  function GenderTest(gender: string): User -> bool {
    (u: User) => MatchesGender(u, gender)
  }

  function CountryTest(country: string): User -> bool {
    (u: User) => MatchesCountry(u, country)
  }

  /** The rows that survive the search stage. */
  function AfterSearch(query: string): User -> bool {
    (u: User) => query == [] || MatchesSearch(u, query)
  }

  /** The rows that survive the search and gender stages. */
  function AfterGender(query: string, gender: string): User -> bool {
    (u: User) => (query == [] || MatchesSearch(u, query)) && (gender == "all" || MatchesGender(u, gender))
  }

  lemma SearchStage(users: seq<User>, query: string)
    ensures Filter(users, AfterSearch(query))
         == if query != [] then Filter(users, SearchTest(query)) else users
  {
    if query != [] {
      FilterExt(users, AfterSearch(query), SearchTest(query));
    } else {
      FilterAll(users, AfterSearch(query));
    }
  }

  lemma GenderStage(users: seq<User>, query: string, gender: string)
    ensures Filter(users, AfterGender(query, gender))
         == if gender != "all" then Filter(Filter(users, AfterSearch(query)), GenderTest(gender))
            else Filter(users, AfterSearch(query))
  {
    if gender != "all" {
      FilterFilter(users, AfterSearch(query), GenderTest(gender), AfterGender(query, gender));
    } else {
      FilterExt(users, AfterGender(query, gender), AfterSearch(query));
    }
  }

  lemma CountryStage(users: seq<User>, query: string, gender: string, country: string)
    ensures Visible(users, query, gender, country)
         == if country != "all" then Filter(Filter(users, AfterGender(query, gender)), CountryTest(country))
            else Filter(users, AfterGender(query, gender))
  {
    if country != "all" {
      FilterFilter(users, AfterGender(query, gender), CountryTest(country), SelectedTest(query, gender, country));
    } else {
      FilterExt(users, SelectedTest(query, gender, country), AfterGender(query, gender));
    }
  }

  /** The filtered rows keep their order from `users` and are exactly the
      rows that pass all three tests. */
  lemma VisibleSpec(users: seq<User>, query: string, gender: string, country: string)
    ensures SubsequenceOf(Visible(users, query, gender, country), users)
    ensures forall u :: u in Visible(users, query, gender, country) <==> u in users && Selected(u, query, gender, country)
  {
    FilterIsSubsequence(users, SelectedTest(query, gender, country));
    forall u ensures u in Visible(users, query, gender, country) <==> u in users && Selected(u, query, gender, country) {
      FilterMembers(users, SelectedTest(query, gender, country), u);
    }
  }

  /** The view is what the page may show: the visible rows, rearranged into
      the comparator's order when a sort is set, and in canonical order otherwise. */
  lemma ViewIsView(users: seq<User>, query: string, gender: string, country: string,
                   column: Option<Column>, direction: Option<Direction>)
    ensures IsView(View(users, query, gender, country, column, direction),
                   users, query, gender, country, column, direction)
  {
    if column.Some? && direction.Some? {
      ComparatorIsTotalPreorder(column.value, direction.value);
      SortBySorted(Visible(users, query, gender, country), Comparator(column.value, direction.value));
    }
  }

  /** Whatever the sort, a view holds exactly the rows that pass the filters. */
  lemma ViewMembers(result: seq<User>, users: seq<User>, query: string, gender: string,
                    country: string, column: Option<Column>, direction: Option<Direction>)
    requires IsView(result, users, query, gender, country, column, direction)
    ensures forall u :: u in result <==> u in users && Selected(u, query, gender, country)
  {
    var visible := Visible(users, query, gender, country);
    forall u ensures u in result <==> u in visible {
      assert u in result <==> u in multiset(result);
      assert u in visible <==> u in multiset(visible);
    }
    forall u ensures u in visible <==> u in users && Selected(u, query, gender, country) {
      FilterMembers(users, SelectedTest(query, gender, country), u);
    }
  }

  /** The body of `filterAndSortUsers`: each active filter narrows `result`
      in turn, then the stable sort runs when a column and a direction are set. */
  method FilterAndSort(users: seq<User>, query: string, gender: string, country: string,
                       column: Option<Column>, direction: Option<Direction>)
    returns (result: seq<User>)
    ensures result == View(users, query, gender, country, column, direction)
  {
    result := users;
    if query != [] {
      result := Filter(result, SearchTest(query));
    }
    SearchStage(users, query);
    if gender != "all" {
      result := Filter(result, GenderTest(gender));
    }
    GenderStage(users, query, gender);
    if country != "all" {
      result := Filter(result, CountryTest(country));
    }
    CountryStage(users, query, gender, country);
    if column.Some? && direction.Some? {
      result := SortBy(result, Comparator(column.value, direction.value));
    }
  }

  /** Gender and country filters may be applied in either order. */
  lemma GenderCountryCommute(users: seq<User>, gender: string, country: string)
    ensures Filter(Filter(users, (u: User) => MatchesGender(u, gender)), (u: User) => MatchesCountry(u, country))
         == Filter(Filter(users, (u: User) => MatchesCountry(u, country)), (u: User) => MatchesGender(u, gender))
  {
    FilterCommutes(users, (u: User) => MatchesGender(u, gender), (u: User) => MatchesCountry(u, country));
  }

  /** A non-empty query that matches no row leaves nothing to show, whatever
      the other filters and the sort, and the table has a single page. */
  lemma UnmatchedQueryShowsNothing(users: seq<User>, query: string, gender: string, country: string,
                                   column: Option<Column>, direction: Option<Direction>)
    requires query != []
    requires forall u :: u in users ==> !MatchesSearch(u, query)
    ensures Visible(users, query, gender, country) == []
    ensures View(users, query, gender, country, column, direction) == []
    ensures forall k :: k > 0 ==> TotalPages(|View(users, query, gender, country, column, direction)|, k) == 1
  {
    FilterNone(users, SelectedTest(query, gender, country));
  }

  /** `handleSort(column)`: a new column starts ascending; the same column
      goes from ascending to descending, and from descending to unsorted. */
  function NextSort(sortColumn: Option<Column>, sortDirection: Option<Direction>, column: Column)
    : (Option<Column>, Option<Direction>)
  {
    if sortColumn == Some(column) then
      if sortDirection == Some(Asc) then (sortColumn, Some(Desc))
      else if sortDirection == Some(Desc) then (None, None)
      else (sortColumn, sortDirection)
    else (Some(column), Some(Asc))
  }

  /** A column is set exactly when a direction is. */
  predicate SortConsistent(sortColumn: Option<Column>, sortDirection: Option<Direction>) {
    sortColumn.None? <==> sortDirection.None?
  }

  /** The header keeps column and direction set or cleared together, and
      every click changes the sort. */
  lemma NextSortKeepsConsistent(sortColumn: Option<Column>, sortDirection: Option<Direction>, column: Column)
    requires SortConsistent(sortColumn, sortDirection)
    ensures var next := NextSort(sortColumn, sortDirection, column);
      SortConsistent(next.0, next.1) && next != (sortColumn, sortDirection)
  {
    if sortColumn == Some(column) {
      match sortDirection.value
      case Asc => assert sortDirection == Some(Asc);
      case Desc => assert sortDirection == Some(Desc);
    }
  }

  /** Clicking one header three times from unsorted, or from a sort on that
      column, passes through ascending and descending and comes back. */
  lemma NextSortCycle(sortColumn: Option<Column>, sortDirection: Option<Direction>, column: Column)
    requires SortConsistent(sortColumn, sortDirection)
    requires sortColumn == None || sortColumn == Some(column)
    ensures var s1 := NextSort(sortColumn, sortDirection, column);
      var s2 := NextSort(s1.0, s1.1, column);
      var s3 := NextSort(s2.0, s2.1, column);
      s3 == (sortColumn, sortDirection) && s1 != s2 && s2 != s3 && s1 != s3
  {
    var unsorted: (Option<Column>, Option<Direction>) := (None, None);
    var asc := (Some(column), Some(Asc));
    var desc := (Some(column), Some(Desc));
    assert NextSort(None, None, column) == asc;
    assert NextSort(asc.0, asc.1, column) == desc;
    assert NextSort(desc.0, desc.1, column) == unsorted;
    if sortColumn.Some? {
      match sortDirection.value
      case Asc => assert (sortColumn, sortDirection) == asc;
      case Desc => assert (sortColumn, sortDirection) == desc;
    }
  }
}
