/** Insertion sort over any total order: orders by digest, decisions by index, scores, schedule events. */
module Sorting {
  ghost predicate Total<T(!new)>(atMost: (T, T) -> bool) {
    && (forall x, y :: atMost(x, y) || atMost(y, x))
    && (forall x, y, z :: atMost(x, y) && atMost(y, z) ==> atMost(x, z))
  }

  ghost predicate InOrder<T>(atMost: (T, T) -> bool, values: seq<T>) {
    forall i, j :: 0 <= i <= j < |values| ==> atMost(values[i], values[j])
  }

  ghost predicate NoDup<T>(values: seq<T>) {
    forall i, j :: 0 <= i < j < |values| ==> values[i] != values[j]
  }

  function Insert<T>(atMost: (T, T) -> bool, x: T, values: seq<T>): seq<T> {
    if values == [] || atMost(x, values[0]) then [x] + values
    else [values[0]] + Insert(atMost, x, values[1..])
  }

  function Sorted<T>(atMost: (T, T) -> bool, values: seq<T>): seq<T> {
    if values == [] then [] else Insert(atMost, values[0], Sorted(atMost, values[1..]))
  }

  lemma {:induction false} InsertKeepsValues<T>(atMost: (T, T) -> bool, x: T, values: seq<T>)
    ensures multiset(Insert(atMost, x, values)) == multiset(values) + multiset{x}
    ensures |Insert(atMost, x, values)| == |values| + 1
  {
    if values == [] || atMost(x, values[0]) {
    } else {
      InsertKeepsValues(atMost, x, values[1..]);
      assert values == [values[0]] + values[1..];
    }
  }

  lemma {:induction false} InsertSorts<T(!new)>(atMost: (T, T) -> bool, x: T, values: seq<T>)
    requires Total(atMost) && InOrder(atMost, values)
    ensures InOrder(atMost, Insert(atMost, x, values))
    ensures Insert(atMost, x, values)[0] == if values == [] || atMost(x, values[0]) then x else values[0]
  {
    if values == [] || atMost(x, values[0]) {
    } else {
      InsertSorts(atMost, x, values[1..]);
    }
  }

  /** Sorting orders the values and keeps each as often as it occurred. */
  lemma {:induction false} SortedSorts<T(!new)>(atMost: (T, T) -> bool, values: seq<T>)
    requires Total(atMost)
    ensures InOrder(atMost, Sorted(atMost, values))
    ensures multiset(Sorted(atMost, values)) == multiset(values) && |Sorted(atMost, values)| == |values|
  {
    if values != [] {
      SortedSorts(atMost, values[1..]);
      InsertSorts(atMost, values[0], Sorted(atMost, values[1..]));
      InsertKeepsValues(atMost, values[0], Sorted(atMost, values[1..]));
      assert values == [values[0]] + values[1..];
    }
  }

  lemma SameMultisetSameMembers<T>(a: seq<T>, b: seq<T>, x: T)
    requires multiset(a) == multiset(b)
    ensures x in a <==> x in b
  {
    assert x in a <==> x in multiset(a);
    assert x in b <==> x in multiset(b);
  }

  /** No value occurs twice exactly when every count is at most one. */
  lemma {:induction false} NoDupIffCounts<T>(values: seq<T>)
    ensures NoDup(values) <==> forall x :: x in values ==> multiset(values)[x] == 1
  {
    if values != [] {
      var head, tail := values[0], values[1..];
      assert values == [head] + tail;
      NoDupIffCounts(tail);
      assert multiset(values) == multiset(tail) + multiset{head};
      assert head in tail <==> head in multiset(tail);
      if NoDup(values) {
        assert head !in tail;
        forall x | x in values ensures multiset(values)[x] == 1 {
          if x != head { assert x in tail; }
        }
      } else if forall x :: x in values ==> multiset(values)[x] == 1 {
        assert head in values && multiset(tail)[head] == 0;
        forall x | x in tail ensures multiset(tail)[x] == 1 { assert x in values; }
        assert false;
      }
    }
  }

  lemma NoDupReadsMultiset<T>(a: seq<T>, b: seq<T>)
    requires multiset(a) == multiset(b) && NoDup(a)
    ensures NoDup(b)
  {
    NoDupIffCounts(a);
    NoDupIffCounts(b);
    forall x | x in b ensures multiset(b)[x] == 1 { SameMultisetSameMembers(a, b, x); }
  }
}
