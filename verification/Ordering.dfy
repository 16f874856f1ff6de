/** Permutations, sorting by a total order, and the order of strings. */
module Ordering {
  // ---------------------------------------------------------------------------
  // Permutations
  // ---------------------------------------------------------------------------

  ghost predicate Distinct<T(!new)>(items: seq<T>) {
    forall i, j :: 0 <= i < j < |items| ==> items[i] != items[j]
  }

  function Map<T, U>(f: T -> U, items: seq<T>): (mapped: seq<U>)
    ensures |mapped| == |items|
    ensures forall i :: 0 <= i < |items| ==> mapped[i] == f(items[i])
  {
    seq(|items|, i requires 0 <= i < |items| => f(items[i]))
  }

  lemma SameMembers<T>(left: seq<T>, right: seq<T>)
    requires multiset(left) == multiset(right)
    ensures |left| == |right|
    ensures forall item :: item in left <==> item in right
  {
    assert |multiset(left)| == |left| && |multiset(right)| == |right|;
    forall item ensures item in left <==> item in right {
      assert item in left <==> item in multiset(left);
      assert item in right <==> item in multiset(right);
    }
  }

  lemma MapAppends<T, U>(f: T -> U, left: seq<T>, right: seq<T>)
    ensures Map(f, left + right) == Map(f, left) + Map(f, right)
  {
  }

  function Without<T>(items: seq<T>, at: nat): seq<T>
    requires at < |items|
  {
    items[..at] + items[at + 1..]
  }

  lemma WithoutOne<T>(items: seq<T>, at: nat)
    requires at < |items|
    ensures multiset(items) == multiset(Without(items, at)) + multiset{items[at]}
  {
    assert items == items[..at] + [items[at]] + items[at + 1..];
  }

  lemma MapWithoutOne<T, U>(f: T -> U, items: seq<T>, at: nat)
    requires at < |items|
    ensures Map(f, Without(items, at)) == Without(Map(f, items), at)
  {
  }

  lemma Occurrence<T>(left: seq<T>, right: seq<T>) returns (at: nat)
    requires multiset(left) == multiset(right) && left != []
    ensures at < |right| && right[at] == left[0]
  {
    SameMembers(left, right);
    assert left[0] in left;
    at :| at < |right| && right[at] == left[0];
  }

  /** Mapping keeps permutations. */
  lemma {:induction false} MapPermutes<T, U>(f: T -> U, left: seq<T>, right: seq<T>)
    requires multiset(left) == multiset(right)
    ensures multiset(Map(f, left)) == multiset(Map(f, right))
    decreases |left|
  {
    SameMembers(left, right);
    if left != [] {
      var at := Occurrence(left, right);
      WithoutOne(left, 0);
      WithoutOne(right, at);
      assert multiset(Without(left, 0)) == multiset(left) - multiset{left[0]};
      assert multiset(Without(right, at)) == multiset(right) - multiset{left[0]};
      MapPermutes(f, Without(left, 0), Without(right, at));
      MapWithoutOne(f, left, 0);
      MapWithoutOne(f, right, at);
      WithoutOne(Map(f, left), 0);
      WithoutOne(Map(f, right), at);
    }
  }

  lemma {:induction false} DistinctMeansOnce<T(!new)>(items: seq<T>)
    ensures Distinct(items) <==> forall item :: multiset(items)[item] <= 1
  {
    if items != [] {
      var first, rest := items[0], items[1..];
      assert items == [first] + rest;
      DistinctMeansOnce(rest);
      if Distinct(items) {
        assert first !in rest;
      } else if Distinct(rest) {
        assert first in rest;
        assert multiset(items)[first] >= 2;
      } else {
        var item :| multiset(rest)[item] > 1;
        assert multiset(items)[item] > 1;
      }
    }
  }

  lemma DistinctPermutes<T(!new)>(left: seq<T>, right: seq<T>)
    requires multiset(left) == multiset(right)
    ensures Distinct(left) <==> Distinct(right)
  {
    DistinctMeansOnce(left);
    DistinctMeansOnce(right);
  }

  // ---------------------------------------------------------------------------
  // Sorting
  // ---------------------------------------------------------------------------

  ghost predicate TotalOrder<T(!new)>(notAfter: (T, T) -> bool) {
    && (forall x, y :: notAfter(x, y) || notAfter(y, x))
    && forall x, y, z :: notAfter(x, y) && notAfter(y, z) ==> notAfter(x, z)
  }

  ghost predicate IsSorted<T(!new)>(items: seq<T>, notAfter: (T, T) -> bool) {
    forall i, j :: 0 <= i < j < |items| ==> notAfter(items[i], items[j])
  }

  function Insert<T>(item: T, items: seq<T>, notAfter: (T, T) -> bool): seq<T> {
    if items == [] then [item]
    else if notAfter(item, items[0]) then [item] + items
    else [items[0]] + Insert(item, items[1..], notAfter)
  }

  function SortBy<T>(items: seq<T>, notAfter: (T, T) -> bool): seq<T> {
    if items == [] then [] else Insert(items[0], SortBy(items[1..], notAfter), notAfter)
  }

  lemma {:induction false} InsertPermutes<T>(item: T, items: seq<T>, notAfter: (T, T) -> bool)
    ensures multiset(Insert(item, items, notAfter)) == multiset(items) + multiset{item}
  {
    if items != [] && !notAfter(item, items[0]) {
      InsertPermutes(item, items[1..], notAfter);
      assert items == [items[0]] + items[1..];
    }
  }

  lemma {:induction false} SortPermutes<T>(items: seq<T>, notAfter: (T, T) -> bool)
    ensures multiset(SortBy(items, notAfter)) == multiset(items)
    ensures |SortBy(items, notAfter)| == |items|
    ensures forall item :: item in SortBy(items, notAfter) <==> item in items
  {
    if items != [] {
      SortPermutes(items[1..], notAfter);
      InsertPermutes(items[0], SortBy(items[1..], notAfter), notAfter);
      assert items == [items[0]] + items[1..];
    }
    SameMembers(SortBy(items, notAfter), items);
  }

  lemma {:induction false} InsertSorts<T(!new)>(item: T, items: seq<T>, notAfter: (T, T) -> bool)
    requires TotalOrder(notAfter) && IsSorted(items, notAfter)
    ensures IsSorted(Insert(item, items, notAfter), notAfter)
  {
    if items != [] {
      if notAfter(item, items[0]) {
        assert forall k :: 0 <= k < |items| ==> notAfter(item, items[k]);
      } else {
        InsertSorts(item, items[1..], notAfter);
        InsertPermutes(item, items[1..], notAfter);
        var rest := Insert(item, items[1..], notAfter);
        forall k | 0 <= k < |rest| ensures notAfter(items[0], rest[k]) {
          assert rest[k] in multiset(items[1..]) + multiset{item};
        }
      }
    }
  }

  lemma {:induction false} SortSorts<T(!new)>(items: seq<T>, notAfter: (T, T) -> bool)
    requires TotalOrder(notAfter)
    ensures IsSorted(SortBy(items, notAfter), notAfter)
  {
    if items != [] {
      SortSorts(items[1..], notAfter);
      InsertSorts(items[0], SortBy(items[1..], notAfter), notAfter);
    }
  }

  // ---------------------------------------------------------------------------
  // Strings
  // ---------------------------------------------------------------------------

  /** Lexicographic order of strings. */
  predicate NameNotAfter(left: string, right: string) {
    left == [] || (right != [] && (left[0] < right[0] || (left[0] == right[0] && NameNotAfter(left[1..], right[1..]))))
  }

  lemma {:induction false} NamesTotal(left: string, right: string)
    ensures NameNotAfter(left, right) || NameNotAfter(right, left)
    ensures NameNotAfter(left, right) && NameNotAfter(right, left) ==> left == right
  {
    if left != [] && right != [] {
      NamesTotal(left[1..], right[1..]);
      assert left == [left[0]] + left[1..] && right == [right[0]] + right[1..];
    }
  }

  lemma {:induction false} NamesTransitive(left: string, middle: string, right: string)
    requires NameNotAfter(left, middle) && NameNotAfter(middle, right)
    ensures NameNotAfter(left, right)
  {
    if left != [] && left[0] == middle[0] == right[0] {
      NamesTransitive(left[1..], middle[1..], right[1..]);
    }
  }
}
