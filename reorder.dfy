/** Drag-and-drop reordering of the canonical list: `onDropAt(from, to)`
    removes the row at `from` and inserts it at `to` in a copy of the list. */
module Reorder {

  /** `s` without its element at `i` (`splice(i, 1)`). */
  function RemoveAt<T>(s: seq<T>, i: nat): (r: seq<T>)
    requires i < |s|
    ensures |r| == |s| - 1
  {
    s[..i] + s[i + 1..]
  }

  /** `splice(from, 1)` followed by `splice(to, 0, moved)`. */
  function Moved<T>(s: seq<T>, from: nat, to: nat): (r: seq<T>)
    requires from < |s| && to < |s|
    ensures |r| == |s|
  {
    var rest := RemoveAt(s, from);
    rest[..to] + [s[from]] + rest[to..]
  }

  /** Position by position: the moved row lands at `to`, the rows between
      the two positions shift by one towards `from`, the others stay. */
  lemma MovedAt<T>(s: seq<T>, from: nat, to: nat, k: nat)
    requires from < |s| && to < |s| && k < |s|
    ensures Moved(s, from, to)[k] ==
      if k == to then s[from]
      else if from < to && from <= k < to then s[k + 1]
      else if to < from && to < k <= from then s[k - 1]
      else s[k]
  {
  }

  /** The move keeps the rows (only their order changes), puts the moved row
      at `to`, and keeps the relative order of all the other rows. */
  lemma MovedSpec<T>(s: seq<T>, from: nat, to: nat)
    requires from < |s| && to < |s|
    ensures multiset(Moved(s, from, to)) == multiset(s)
    ensures Moved(s, from, to)[to] == s[from]
    ensures RemoveAt(Moved(s, from, to), to) == RemoveAt(s, from)
  {
    var rest := RemoveAt(s, from);
    var m := Moved(s, from, to);
    assert s == s[..from] + [s[from]] + s[from + 1..];
    assert multiset(s) == multiset(rest) + multiset{s[from]};
    assert rest == rest[..to] + rest[to..];
    assert m[..to] == rest[..to] && m[to + 1..] == rest[to..];
  }

  /** Dropping a row where it was picked up changes nothing. */
  lemma MovedSame<T>(s: seq<T>, i: nat)
    requires i < |s|
    ensures Moved(s, i, i) == s
  {
    assert s == s[..i] + [s[i]] + s[i + 1..];
  }

  /** Moving the row back undoes the move. */
  lemma MovedInverse<T>(s: seq<T>, from: nat, to: nat)
    requires from < |s| && to < |s|
    ensures Moved(Moved(s, from, to), to, from) == s
  {
    var m := Moved(s, from, to);
    forall k | 0 <= k < |s| ensures Moved(m, to, from)[k] == s[k] {
      MovedAt(m, to, from, k);
      if k != from {
        var j := if to < from && to <= k < from then k + 1
                 else if from < to && from < k <= to then k - 1
                 else k;
        MovedAt(s, from, to, j);
      } else {
        MovedAt(s, from, to, to);
      }
    }
  }

  /** The body of the `setUsers` updater in `onDropAt`: the list is copied
      into a fresh array and the row is moved there by shifting the rows
      between the two positions by one. */
  method MoveCopy<T>(prev: seq<T>, from: nat, to: nat) returns (copy: seq<T>)
    requires from < |prev| && to < |prev|
    ensures copy == Moved(prev, from, to)
  {
    var a := new T[|prev|](i requires 0 <= i < |prev| => prev[i]);
    var moved := a[from];
    if from < to {
      var i := from;
      while i < to
        invariant from <= i <= to
        invariant forall k :: 0 <= k < from || i < k < |prev| ==> a[k] == prev[k]
        invariant forall k :: from <= k < i ==> a[k] == prev[k + 1]
      {
        a[i] := a[i + 1];
        i := i + 1;
      }
    } else {
      var i := from;
      while i > to
        invariant to <= i <= from
        invariant forall k :: 0 <= k < i || from < k < |prev| ==> a[k] == prev[k]
        invariant forall k :: i < k <= from ==> a[k] == prev[k - 1]
      {
        a[i] := a[i - 1];
        i := i - 1;
      }
    }
    a[to] := moved;
    copy := a[..];
    forall k | 0 <= k < |prev| ensures copy[k] == Moved(prev, from, to)[k] {
      MovedAt(prev, from, to, k);
    }
  }
}
