/** Re-applying the persisted row order (the "userOrder" entry of local
    storage) to a freshly fetched batch. Rows whose id the saved order names
    come first, in saved order; every other row follows in fetch order. */
module SavedOrder {
  import opened Seqs
  import opened Users

  /** `users.find((u) => u.id === id)`: the first row with that id. */
  function Find(users: seq<User>, id: string): (r: Option<User>)
    ensures r.Some? ==> r.value in users && r.value.id == id
    ensures r.Some? ==> exists i :: 0 <= i < |users| && users[i] == r.value
                                  && forall j :: 0 <= j < i ==> users[j].id != id
    ensures r.None? ==> forall u :: u in users ==> u.id != id
    decreases |users|
  {
    if users == [] then None
    else if users[0].id == id then Some(users[0])
    else Find(users[1..], id)
  }

  /** `order.map((id) => find(id)).filter(Boolean)`: the rows the saved ids
      name, in saved order, unknown ids skipped. */
  function Ordered(order: seq<string>, users: seq<User>): seq<User>
    decreases |order|
  {
    if order == [] then []
    else
      (match Find(users, order[0]) case Some(u) => [u] case None => [])
      + Ordered(order[1..], users)
  }

  /** `users.filter((u) => !order.includes(u.id))` */
  function Remaining(users: seq<User>, order: seq<string>): seq<User> {
    Filter(users, (u: User) => u.id !in order)
  }

  /** The list the page starts from: the fetched rows when nothing usable is
      stored, otherwise the named rows first and the rest after them. */
  function MergeSavedOrder(fetched: seq<User>, saved: Option<seq<string>>): seq<User> {
    match saved
    case None => fetched
    case Some(order) => Ordered(order, fetched) + Remaining(fetched, order)
  }

  /** The ids of the leading part are exactly the saved ids that name a
      fetched row, in saved order. */
  lemma {:induction false} OrderedIds(order: seq<string>, users: seq<User>)
    ensures Ids(Ordered(order, users)) == Filter(order, (id: string) => Find(users, id).Some?)
    decreases |order|
  {
    if order != [] {
      OrderedIds(order[1..], users);
      var known := (id: string) => Find(users, id).Some?;
      var rest := Ordered(order[1..], users);
      assert order == [order[0]] + order[1..];
      FilterCons(order[0], order[1..], known);
      var f := Find(users, order[0]);
      if f.Some? {
        assert Ordered(order, users) == [f.value] + rest;
        IdsCons(f.value, rest);
      } else {
        assert Ordered(order, users) == rest;
      }
    }
  }

  /** Every row of the leading part is a fetched row that a saved id names. */
  lemma {:induction false} OrderedMember(order: seq<string>, users: seq<User>, x: User)
    requires x in Ordered(order, users)
    ensures x in users && x.id in order
    decreases |order|
  {
    var rest := Ordered(order[1..], users);
    var f := Find(users, order[0]);
    if f.Some? && x == f.value {
    } else {
      assert x in rest;
      OrderedMember(order[1..], users, x);
    }
  }

  /** Each fetched row appears in the leading part once per saved occurrence of its id. */
  lemma {:induction false} OrderedCount(order: seq<string>, users: seq<User>, u: User)
    requires UniqueIds(users) && u in users
    ensures multiset(Ordered(order, users))[u] == multiset(order)[u.id]
    decreases |order|
  {
    if order != [] {
      var rest := Ordered(order[1..], users);
      OrderedCount(order[1..], users, u);
      CountCons(order, u.id);
      var f := Find(users, order[0]);
      if f.Some? {
        var v := f.value;
        var all := [v] + rest;
        assert Ordered(order, users) == all;
        assert all[1..] == rest;
        CountCons(all, u);
        if order[0] == u.id {
          SameIdSameUser(users, u, v);
        }
      } else {
        assert Ordered(order, users) == rest;
      }
    }
  }

  /** When the fetched ids are unique and the saved order repeats no id, the
      merged list is a rearrangement of the fetched batch: no row is lost or
      doubled. */
  lemma MergeIsPermutation(fetched: seq<User>, saved: Option<seq<string>>)
    requires UniqueIds(fetched)
    requires saved.Some? ==> NoDup(saved.value)
    ensures multiset(MergeSavedOrder(fetched, saved)) == multiset(fetched)
  {
    if saved.Some? {
      var order := saved.value;
      var keep := (u: User) => u.id !in order;
      var ordered, remaining := Ordered(order, fetched), Remaining(fetched, order);
      forall u ensures multiset(ordered + remaining)[u] == multiset(fetched)[u] {
        FilterCount(fetched, keep, u);
        if u in fetched {
          OrderedCount(order, fetched, u);
          NoDupCount(order, u.id);
          UniqueIdsCount(fetched, u);
        } else {
          assert u !in ordered by {
            if u in ordered {
              OrderedMember(order, fetched, u);
            }
          }
        }
      }
      assert multiset(ordered + remaining) == multiset(fetched);
    }
  }

  /** A saved order none of whose ids is fetched leaves the fetch order as it
      is: with freshly generated ids the merge changes nothing. */
  lemma MergeWithUnknownIds(fetched: seq<User>, order: seq<string>)
    requires forall u :: u in fetched ==> u.id !in order
    ensures MergeSavedOrder(fetched, Some(order)) == fetched
  {
    OrderedUnknown(order, fetched);
    FilterAll(fetched, (u: User) => u.id !in order);
  }

  lemma {:induction false} OrderedUnknown(order: seq<string>, users: seq<User>)
    requires forall u :: u in users ==> u.id !in order
    ensures Ordered(order, users) == []
    decreases |order|
  {
    if order != [] {
      assert order[0] in order;
      OrderedUnknown(order[1..], users);
    }
  }

  /** Round trip: when `q` is some rearrangement of the fetched batch (ids
      unique), merging with the saved ids of `q` gives back `q` exactly. This
      is what makes a dragged order survive a reload of the same batch. */
  lemma MergeRestoresSavedOrder(fetched: seq<User>, q: seq<User>)
    requires UniqueIds(fetched) && multiset(q) == multiset(fetched)
    ensures MergeSavedOrder(fetched, Some(Ids(q))) == q
  {
    var order := Ids(q);
    forall u | u in q ensures u in fetched {
      assert u in multiset(q);
    }
    OrderedAll(q, fetched);
    forall u | u in fetched ensures u.id in order {
      assert u in multiset(q);
      var i :| 0 <= i < |q| && q[i] == u;
      assert order[i] == u.id;
    }
    FilterNone(fetched, (u: User) => u.id !in order);
  }

  /** Looking up the ids of rows of `users` (ids unique) gives the rows back. */
  lemma {:induction false} OrderedAll(q: seq<User>, users: seq<User>)
    requires UniqueIds(users)
    requires forall u :: u in q ==> u in users
    ensures Ordered(Ids(q), users) == q
    decreases |q|
  {
    if q != [] {
      assert Ids(q)[1..] == Ids(q[1..]);
      var f := Find(users, q[0].id);
      SameIdSameUser(users, q[0], f.value);
      OrderedAll(q[1..], users);
      assert q == [q[0]] + q[1..];
    }
  }

  /** The layout of a merge with a saved order: its first part holds, by id,
      exactly the saved ids that name a fetched row, in saved order; the rest
      are the fetched rows the saved order does not name, in fetch order. */
  lemma MergeLayout(fetched: seq<User>, order: seq<string>)
    ensures var m := MergeSavedOrder(fetched, Some(order));
      var k := |Filter(order, (id: string) => Find(fetched, id).Some?)|;
      && k <= |m|
      && Ids(m[..k]) == Filter(order, (id: string) => Find(fetched, id).Some?)
      && SubsequenceOf(m[k..], fetched)
      && (forall u :: u in m[k..] <==> u in fetched && u.id !in order)
  {
    var ordered, remaining := Ordered(order, fetched), Remaining(fetched, order);
    OrderedIds(order, fetched);
    var m := ordered + remaining;
    assert m[..|ordered|] == ordered && m[|ordered|..] == remaining;
    FilterIsSubsequence(fetched, (u: User) => u.id !in order);
    forall u ensures u in remaining <==> u in fetched && u.id !in order {
      FilterMembers(fetched, (u: User) => u.id !in order, u);
    }
  }
}
