/** Sorting by a string key with an arbitrary strict total order on strings. */
module Ordering {

  type Before = (string, string) -> bool

  ghost predicate StrictTotalOrder(before: Before)
  {
    && (forall a :: !before(a, a))
    && (forall a, b :: a != b ==> before(a, b) || before(b, a))
    && (forall a, b, c :: before(a, b) && before(b, c) ==> before(a, c))
  }

  function Insert<T>(item: T, sorted: seq<T>, key: T -> string, before: Before): seq<T>
  {
    if sorted == [] || before(key(item), key(sorted[0])) then [item] + sorted
    else [sorted[0]] + Insert(item, sorted[1..], key, before)
  }

  function Sort<T>(items: seq<T>, key: T -> string, before: Before): seq<T>
  {
    if items == [] then [] else Insert(items[|items| - 1], Sort(items[..|items| - 1], key, before), key, before)
  }

  ghost predicate Ascending<T>(items: seq<T>, key: T -> string, before: Before)
  {
    forall i, j :: 0 <= i < j < |items| ==> before(key(items[i]), key(items[j]))
  }

  ghost predicate DistinctBy<T>(items: seq<T>, key: T -> string)
  {
    forall i, j :: 0 <= i < j < |items| ==> key(items[i]) != key(items[j])
  }

  lemma {:induction false} InsertKeepsOrder<T(!new)>(item: T, sorted: seq<T>, key: T -> string, before: Before)
    requires StrictTotalOrder(before) && Ascending(sorted, key, before)
    requires forall x :: x in sorted ==> key(x) != key(item)
    ensures Ascending(Insert(item, sorted, key, before), key, before)
    ensures forall x :: x in Insert(item, sorted, key, before) <==> x == item || x in sorted
  {
    if sorted != [] && !before(key(item), key(sorted[0])) {
      var first, rest := sorted[0], Insert(item, sorted[1..], key, before);
      InsertKeepsOrder(item, sorted[1..], key, before);
      forall x | x in rest ensures before(key(first), key(x)) {
        if x != item {
          assert x in sorted[1..];
          var i :| 0 <= i < |sorted[1..]| && sorted[1..][i] == x;
          assert sorted[i + 1] == x;
        } else {
          assert first in sorted;
        }
      }
    }
  }

  lemma {:induction false} SortSorts<T(!new)>(items: seq<T>, key: T -> string, before: Before)
    requires StrictTotalOrder(before) && DistinctBy(items, key)
    ensures Ascending(Sort(items, key, before), key, before)
    ensures forall x :: x in Sort(items, key, before) <==> x in items
  {
    if items != [] {
      var front, last := items[..|items| - 1], items[|items| - 1];
      SortSorts(front, key, before);
      forall x | x in front ensures key(x) != key(last) {
        var i :| 0 <= i < |front| && front[i] == x;
        assert items[i] == x;
      }
      assert items == front + [last];
      assert forall x :: x in Sort(front, key, before) ==> x in front;
      InsertKeepsOrder(last, Sort(front, key, before), key, before);
    }
  }

  /** An ascending sequence is determined by its elements. */
  lemma {:induction false} AscendingIsUnique<T(!new)>(a: seq<T>, b: seq<T>, key: T -> string, before: Before)
    requires StrictTotalOrder(before) && Ascending(a, key, before) && Ascending(b, key, before)
    requires forall x :: x in a <==> x in b
    ensures a == b
  {
    assert |a| > 0 ==> a[0] in b;
    assert |b| > 0 ==> b[0] in a;
    if a != [] {
      assert a[0] == b[0];
      forall x ensures x in a[1..] <==> x in b[1..] {
        assert x in a[1..] ==> x in a && x != a[0];
        assert x in b[1..] ==> x in b && x != b[0];
      }
      AscendingIsUnique(a[1..], b[1..], key, before);
    }
  }

  /** Sorting depends only on which items there are, not on the order they come in. */
  lemma SortIsCanonical<T(!new)>(a: seq<T>, b: seq<T>, key: T -> string, before: Before)
    requires StrictTotalOrder(before) && DistinctBy(a, key) && DistinctBy(b, key)
    requires forall x :: x in a <==> x in b
    ensures Sort(a, key, before) == Sort(b, key, before)
  {
    SortSorts(a, key, before);
    SortSorts(b, key, before);
    AscendingIsUnique(Sort(a, key, before), Sort(b, key, before), key, before);
  }

  lemma SortIsIdempotent<T(!new)>(items: seq<T>, key: T -> string, before: Before)
    requires StrictTotalOrder(before) && DistinctBy(items, key)
    ensures Sort(Sort(items, key, before), key, before) == Sort(items, key, before)
    ensures DistinctBy(Sort(items, key, before), key)
  {
    SortSorts(items, key, before);
    SortIsCanonical(Sort(items, key, before), items, key, before);
  }
}
