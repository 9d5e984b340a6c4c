/** The records of the page: a raw profile as the random-profile service
    returns it, the `User` row the table shows, the normalisation from one to
    the other, and the list of distinct countries offered by the country
    filter. */
module Users {
  import opened Seqs
  import opened Text
  import opened Sorting

  /** The fields of one result of the random-profile service that the page reads. */
  datatype RawProfile = RawProfile(
    gender: string,
    title: string,
    first: string,
    last: string,
    country: string,
    email: string,
    age: int,
    picture: string,
    uuid: string)

  datatype User = User(
    id: string,
    name: string,
    email: string,
    gender: string,
    country: string,
    age: int,
    picture: string)

  /** One profile mapped to a table row. */
  function Normalize(p: RawProfile): (u: User)
    ensures u.id == p.uuid && u.email == p.email && u.country == p.country
    ensures u.age == p.age && u.picture == p.picture
    ensures u.name == p.first + " " + p.last
    ensures |u.gender| == |p.gender|
    ensures |p.gender| > 0 ==> u.gender[0] == UpperChar(p.gender[0]) && u.gender[1..] == p.gender[1..]
  {
    User(p.uuid, p.first + " " + p.last, p.email, Capitalize(p.gender), p.country, p.age, p.picture)
  }

  /** The whole fetched batch, mapped one to one and in order. */
  function NormalizeAll(raw: seq<RawProfile>): (us: seq<User>)
    ensures |us| == |raw|
    ensures forall i :: 0 <= i < |raw| ==> us[i] == Normalize(raw[i])
  {
    seq(|raw|, i requires 0 <= i < |raw| => Normalize(raw[i]))
  }

  /** The gender a row shows compares case-insensitively equal to the gender
      the service sent, so a gender filter sees the same rows either way. */
  lemma NormalizeKeepsGenderCaseless(p: RawProfile)
    ensures Lower(Normalize(p).gender) == Lower(p.gender)
  {
    LowerOfCapitalize(p.gender);
  }

  /** `users.map((u) => u.id)` */
  function Ids(users: seq<User>): seq<string> {
    seq(|users|, i requires 0 <= i < |users| => users[i].id)
  }

  /** The ids of a row followed by more rows. */
  lemma IdsCons(u: User, rest: seq<User>)
    ensures Ids([u] + rest) == [u.id] + Ids(rest)
  {
  }

  /** No two rows carry the same id. */
  predicate UniqueIds(users: seq<User>) {
    forall i, j :: 0 <= i < j < |users| ==> users[i].id != users[j].id
  }

  /** With unique ids, a row is determined by its id. */
  lemma SameIdSameUser(users: seq<User>, u: User, v: User)
    requires UniqueIds(users) && u in users && v in users && u.id == v.id
    ensures u == v
  {
    var i :| 0 <= i < |users| && users[i] == u;
    var j :| 0 <= j < |users| && users[j] == v;
    assert !(i < j) && !(j < i);
  }

  /** With unique ids every row occurs exactly once. */
  lemma {:induction false} UniqueIdsCount(users: seq<User>, u: User)
    requires UniqueIds(users) && u in users
    ensures multiset(users)[u] == 1
    decreases |users|
  {
    assert users == [users[0]] + users[1..];
    if users[0] == u {
      assert u !in users[1..];
    } else {
      UniqueIdsCount(users[1..], u);
    }
  }

  /** Distinct ids are also distinct rows. */
  lemma UniqueIdsNoDup(users: seq<User>)
    requires UniqueIds(users)
    ensures NoDup(users)
  {
  }

  /** `users.map((u) => u.country)` */
  function Countries(users: seq<User>): seq<string> {
    seq(|users|, i requires 0 <= i < |users| => users[i].country)
  }

  /** `Array.from(new Set(xs))`: first occurrences, in order. */
  function Distinct(xs: seq<string>): (r: seq<string>)
    ensures NoDup(r)
    ensures forall x :: x in r <==> x in xs
    decreases |xs|
  {
    if xs == [] then []
    else
      var rest := Distinct(xs[..|xs| - 1]);
      var last := xs[|xs| - 1];
      assert xs == xs[..|xs| - 1] + [last];
      if last in rest then rest else rest + [last]
  }

  /** `uniqueCountries`: the countries of the rows, each once, in the default
      order of `Array.prototype.sort`, taken as code-point order. */
  function UniqueCountries(users: seq<User>): seq<string> {
    SortBy(Distinct(Countries(users)), StrLe)
  }

  lemma StrLeIsTotalPreorder()
    ensures TotalPreorder(StrLe)
  {
    forall a, b ensures StrLe(a, b) || StrLe(b, a) {
      StrLeTotal(a, b);
    }
    forall a, b, c | StrLe(a, b) && StrLe(b, c) ensures StrLe(a, c) {
      StrLeTrans(a, b, c);
    }
  }

  /** A country occurs in `Countries(users)` exactly when some row has it. */
  lemma CountriesHas(users: seq<User>, c: string)
    ensures c in Countries(users) <==> exists u :: u in users && u.country == c
  {
    if c in Countries(users) {
      var i :| 0 <= i < |users| && Countries(users)[i] == c;
      assert users[i] in users;
    }
    if exists u :: u in users && u.country == c {
      var u :| u in users && u.country == c;
      var i :| 0 <= i < |users| && users[i] == u;
      assert Countries(users)[i] == c;
    }
  }

  /** The country list names every country of the rows and nothing else,
      each once, in increasing order. */
  lemma UniqueCountriesSpec(users: seq<User>)
    ensures var r := UniqueCountries(users);
      && (forall c :: c in r <==> exists u :: u in users && u.country == c)
      && NoDup(r)
      && SortedBy(r, StrLe)
  {
    var d := Distinct(Countries(users));
    var r := SortBy(d, StrLe);
    StrLeIsTotalPreorder();
    SortBySorted(d, StrLe);
    PermutationKeepsNoDup(d, r);
    forall c ensures c in r <==> exists u :: u in users && u.country == c {
      assert c in r <==> c in multiset(r);
      assert c in d <==> c in multiset(d);
      CountriesHas(users, c);
    }
  }
}
