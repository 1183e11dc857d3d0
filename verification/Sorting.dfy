/** Stable sorting, and what it keeps. */
module Sorting {

  type Order<!T> = (T, T) -> bool

  /** `le` puts any two values in order. */
  ghost predicate IsOrder<T(!new)>(le: Order<T>) {
    && (forall a, b :: le(a, b) || le(b, a))
    && (forall a, b, c :: le(a, b) && le(b, c) ==> le(a, c))
  }

  /** `x` before the first value it does not come behind. */
  function Inserted<T>(x: T, sorted: seq<T>, le: Order<T>): seq<T> {
    if sorted == [] || le(x, sorted[0]) then [x] + sorted
    else [sorted[0]] + Inserted(x, sorted[1..], le)
  }

  /** The values in order; values that compare equal keep their order. */
  function Sorted<T>(values: seq<T>, le: Order<T>): seq<T> {
    if values == [] then [] else Inserted(values[0], Sorted(values[1..], le), le)
  }

  lemma {:induction false} InsertedIsAdded<T>(x: T, sorted: seq<T>, le: Order<T>)
    ensures multiset(Inserted(x, sorted, le)) == multiset{x} + multiset(sorted)
  {
    if sorted != [] && !le(x, sorted[0]) {
      assert sorted == [sorted[0]] + sorted[1..];
      InsertedIsAdded(x, sorted[1..], le);
    }
  }

  lemma {:induction false} SortedIsPermutation<T>(values: seq<T>, le: Order<T>)
    ensures multiset(Sorted(values, le)) == multiset(values)
  {
    if values != [] {
      assert values == [values[0]] + values[1..];
      SortedIsPermutation(values[1..], le);
      InsertedIsAdded(values[0], Sorted(values[1..], le), le);
    }
  }

  lemma SameMembers<T>(values: seq<T>, le: Order<T>, x: T)
    ensures x in Sorted(values, le) <==> x in values
  {
    SortedIsPermutation(values, le);
    assert x in multiset(Sorted(values, le)) <==> x in multiset(values);
  }

  ghost predicate InOrder<T>(values: seq<T>, le: Order<T>) {
    forall i, j :: 0 <= i < j < |values| ==> le(values[i], values[j])
  }

  lemma Transitive<T(!new)>(le: Order<T>, a: T, b: T, c: T)
    requires IsOrder(le) && le(a, b) && le(b, c)
    ensures le(a, c)
  {
  }

  lemma Total<T(!new)>(le: Order<T>, a: T, b: T)
    requires IsOrder(le)
    ensures le(a, b) || le(b, a)
  {
  }

  lemma {:induction false} InsertedInOrder<T(!new)>(x: T, sorted: seq<T>, le: Order<T>)
    requires IsOrder(le) && InOrder(sorted, le)
    ensures InOrder(Inserted(x, sorted, le), le)
  {
    hide IsOrder;
    if sorted == [] {
    } else if le(x, sorted[0]) {
      forall j | 0 <= j < |sorted| ensures le(x, sorted[j]) {
        if j > 0 { Transitive(le, x, sorted[0], sorted[j]); }
      }
    } else {
      InsertedInOrder(x, sorted[1..], le);
      Total(le, x, sorted[0]);
      var tail := Inserted(x, sorted[1..], le);
      forall j | 0 <= j < |tail| ensures le(sorted[0], tail[j]) {
        InsertedIsAdded(x, sorted[1..], le);
        assert tail[j] in multiset(tail);
        assert tail[j] == x || tail[j] in sorted[1..];
      }
    }
  }

  lemma {:induction false} SortedInOrder<T(!new)>(values: seq<T>, le: Order<T>)
    requires IsOrder(le)
    ensures InOrder(Sorted(values, le), le)
  {
    if values != [] {
      SortedInOrder(values[1..], le);
      InsertedInOrder(values[0], Sorted(values[1..], le), le);
    }
  }

  // ----- Leaving values out -----

  function Filtered<T>(values: seq<T>, keep: T -> bool): seq<T> {
    if values == [] then []
    else (if keep(values[0]) then [values[0]] else []) + Filtered(values[1..], keep)
  }

  lemma FilteredCons<T>(first: T, values: seq<T>, keep: T -> bool)
    ensures Filtered([first] + values, keep) == (if keep(first) then [first] else []) + Filtered(values, keep)
  {
    assert ([first] + values)[1..] == values;
  }

  lemma {:induction false} FilteredAppend<T>(a: seq<T>, b: seq<T>, keep: T -> bool)
    ensures Filtered(a + b, keep) == Filtered(a, keep) + Filtered(b, keep)
  {
    if a == [] {
      assert a + b == b;
    } else {
      var first, rest := a[0], a[1..];
      FilteredAppend(rest, b, keep);
      FilteredCons(first, rest, keep);
      FilteredCons(first, rest + b, keep);
      assert a == [first] + rest && a + b == [first] + (rest + b);
      hide Filtered;
    }
  }

  lemma FilteredSnoc<T>(values: seq<T>, keep: T -> bool)
    requires values != []
    ensures var front, last := values[..|values| - 1], values[|values| - 1];
            Filtered(values, keep) == if keep(last) then Filtered(front, keep) + [last] else Filtered(front, keep)
  {
    var front, last := values[..|values| - 1], values[|values| - 1];
    assert values == front + [last];
    FilteredAppend(front, [last], keep);
    FilteredCons(last, [], keep);
    assert [last] + [] == [last];
  }

  lemma {:induction false} FilteredMembers<T>(values: seq<T>, keep: T -> bool, x: T)
    ensures x in Filtered(values, keep) <==> x in values && keep(x)
  {
    if values != [] {
      FilteredMembers(values[1..], keep, x);
      assert values == [values[0]] + values[1..];
    }
  }

  /** A value that comes before all others is inserted in front of them. */
  lemma InsertedInFront<T(!new)>(x: T, sorted: seq<T>, le: Order<T>, keep: T -> bool)
    requires IsOrder(le) && InOrder(sorted, le)
    requires sorted != [] && le(x, sorted[0])
    ensures Inserted(x, Filtered(sorted, keep), le) == [x] + Filtered(sorted, keep)
  {
    hide IsOrder, Filtered;
    var kept := Filtered(sorted, keep);
    if kept != [] {
      FilteredMembers(sorted, keep, kept[0]);
      var j :| 0 <= j < |sorted| && sorted[j] == kept[0];
      if j > 0 { Transitive(le, x, sorted[0], sorted[j]); }
    }
  }

  lemma {:induction false} FilteredInserted<T(!new)>(x: T, sorted: seq<T>, le: Order<T>, keep: T -> bool)
    requires IsOrder(le) && InOrder(sorted, le)
    ensures Filtered(Inserted(x, sorted, le), keep)
         == if keep(x) then Inserted(x, Filtered(sorted, keep), le) else Filtered(sorted, keep)
  {
    if sorted == [] {
    } else if le(x, sorted[0]) {
      InsertedInFront(x, sorted, le, keep);
      FilteredCons(x, sorted, keep);
      hide Filtered, IsOrder, InOrder;
    } else {
      var first, rest := sorted[0], sorted[1..];
      var tail, kept := Inserted(x, rest, le), Filtered(rest, keep);
      FilteredInserted(x, rest, le, keep);
      FilteredCons(first, rest, keep);
      FilteredCons(first, tail, keep);
      assert sorted == [first] + rest;
      assert Inserted(x, sorted, le) == [first] + tail;
      if keep(first) {
        assert Filtered(sorted, keep) == [first] + kept;
        assert ([first] + kept)[1..] == kept;
      } else {
        assert Filtered(sorted, keep) == kept;
      }
    }
  }

  /** Leaving values out before sorting or after it is the same. */
  lemma {:induction false} FilteredSorted<T(!new)>(values: seq<T>, le: Order<T>, keep: T -> bool)
    requires IsOrder(le)
    ensures Filtered(Sorted(values, le), keep) == Sorted(Filtered(values, keep), le)
  {
    if values != [] {
      var first, rest := values[0], values[1..];
      FilteredSorted(rest, le, keep);
      SortedInOrder(rest, le);
      FilteredInserted(first, Sorted(rest, le), le, keep);
      FilteredCons(first, rest, keep);
      assert values == [first] + rest;
      var kept := Filtered(rest, keep);
      if keep(first) {
        assert Filtered(values, keep) == [first] + kept;
        assert ([first] + kept)[1..] == kept;
      } else {
        assert Filtered(values, keep) == kept;
      }
    }
  }
}
