/** `std::stable_sort` with a comparator, as insertion from the right. */
module Sorting {

  function Insert<T>(x: T, s: seq<T>, lt: (T, T) -> bool): seq<T> {
    if s == [] then [x]
    else if lt(s[0], x) then [s[0]] + Insert(x, s[1..], lt)
    else [x] + s
  }

  function StableSort<T>(s: seq<T>, lt: (T, T) -> bool): seq<T> {
    if s == [] then [] else Insert(s[0], StableSort(s[1..], lt), lt)
  }

  ghost predicate Ascending<T>(s: seq<T>, key: T -> int) {
    forall i, j :: 0 <= i < j < |s| ==> key(s[i]) <= key(s[j])
  }

  /** On these elements the comparator is "smaller key". */
  ghost predicate ComparesBy<T>(s: seq<T>, lt: (T, T) -> bool, key: T -> int) {
    forall x, y :: x in s && y in s ==> (lt(x, y) <==> key(x) < key(y))
  }

  lemma {:induction false} InsertMembers<T(!new)>(x: T, s: seq<T>, lt: (T, T) -> bool)
    ensures multiset(Insert(x, s, lt)) == multiset{x} + multiset(s)
    ensures forall y :: y in Insert(x, s, lt) <==> y == x || y in s
  {
    if s == [] || !lt(s[0], x) {
    } else {
      InsertMembers(x, s[1..], lt);
      assert s == [s[0]] + s[1..];
    }
  }

  lemma {:induction false} SameSize<T(!new)>(a: seq<T>, b: seq<T>)
    requires multiset(a) == multiset(b)
    ensures |a| == |b|
  {
    assert |multiset(a)| == |multiset(b)|;
  }

  lemma {:induction false} SortMembers<T(!new)>(s: seq<T>, lt: (T, T) -> bool)
    ensures multiset(StableSort(s, lt)) == multiset(s)
    ensures |StableSort(s, lt)| == |s|
    ensures forall y :: y in StableSort(s, lt) <==> y in s
  {
    if s == [] {
    } else {
      var rest := StableSort(s[1..], lt);
      assert StableSort(s, lt) == Insert(s[0], rest, lt);
      hide Insert; hide StableSort;
      SortMembers(s[1..], lt);
      InsertMembers(s[0], rest, lt);
      assert s == [s[0]] + s[1..];
      SameSize(Insert(s[0], rest, lt), s);
    }
  }

  lemma {:induction false} InsertAscending<T(!new)>(x: T, s: seq<T>, lt: (T, T) -> bool, key: T -> int)
    requires Ascending(s, key)
    requires forall y :: y in s ==> (lt(y, x) <==> key(y) < key(x))
    ensures Ascending(Insert(x, s, lt), key)
  {
    if s == [] || !lt(s[0], x) {
    } else {
      var t := Insert(x, s[1..], lt);
      InsertAscending(x, s[1..], lt, key);
      InsertMembers(x, s[1..], lt);
      forall y | y in t ensures key(s[0]) <= key(y) {
        if y != x {
          assert y in s[1..];
          var j :| 0 < j < |s| && s[j] == y;
        }
      }
    }
  }

  /** Under a key the result is the ascending permutation of the input. */
  lemma {:induction false} SortAscending<T(!new)>(s: seq<T>, lt: (T, T) -> bool, key: T -> int)
    requires ComparesBy(s, lt, key)
    ensures Ascending(StableSort(s, lt), key)
  {
    if s == [] {
    } else {
      SortAscending(s[1..], lt, key);
      SortMembers(s[1..], lt);
      assert s[0] in s && forall y :: y in s[1..] ==> y in s;
      InsertAscending(s[0], StableSort(s[1..], lt), lt, key);
    }
  }

  /** An ascending list is already sorted. */
  lemma {:induction false} SortIdle<T(!new)>(s: seq<T>, lt: (T, T) -> bool, key: T -> int)
    requires ComparesBy(s, lt, key) && Ascending(s, key)
    ensures StableSort(s, lt) == s
  {
    if s == [] {
    } else {
      SortIdle(s[1..], lt, key);
      assert |s| > 1 ==> key(s[0]) <= key(s[1]);
    }
  }

  function MapSeq<T, U>(s: seq<T>, f: T -> U): seq<U> {
    seq(|s|, i requires 0 <= i < |s| => f(s[i]))
  }

  lemma {:induction false} InsertMap<T(!new), U(!new)>(x: T, s: seq<T>, f: T -> U, lt: (T, T) -> bool, lu: (U, U) -> bool)
    requires forall y :: y in s ==> (lt(y, x) <==> lu(f(y), f(x)))
    ensures Insert(f(x), MapSeq(s, f), lu) == MapSeq(Insert(x, s, lt), f)
  {
    if s == [] {
    } else {
      assert MapSeq(s, f)[1..] == MapSeq(s[1..], f);
      if lt(s[0], x) {
        InsertMap(x, s[1..], f, lt, lu);
      }
    }
  }

  /** Sorting commutes with a map that respects the comparators. */
  lemma {:induction false} SortMap<T(!new), U(!new)>(s: seq<T>, f: T -> U, lt: (T, T) -> bool, lu: (U, U) -> bool)
    requires forall x, y :: x in s && y in s ==> (lt(x, y) <==> lu(f(x), f(y)))
    ensures StableSort(MapSeq(s, f), lu) == MapSeq(StableSort(s, lt), f)
  {
    if s == [] {
    } else {
      assert MapSeq(s, f)[1..] == MapSeq(s[1..], f);
      SortMap(s[1..], f, lt, lu);
      SortMembers(s[1..], lt);
      assert s[0] in s && forall y :: y in s[1..] ==> y in s;
      InsertMap(s[0], StableSort(s[1..], lt), f, lt, lu);
    }
  }

  function SumBy<T>(s: seq<T>, size: T -> nat): nat {
    if s == [] then 0 else size(s[0]) + SumBy(s[1..], size)
  }

  lemma {:induction false} SumInsert<T(!new)>(x: T, s: seq<T>, lt: (T, T) -> bool, size: T -> nat)
    ensures SumBy(Insert(x, s, lt), size) == size(x) + SumBy(s, size)
  {
    if s != [] && lt(s[0], x) {
      SumInsert(x, s[1..], lt, size);
    } else {
      assert ([x] + s)[1..] == s;
    }
  }

  lemma {:induction false} SumSort<T(!new)>(s: seq<T>, lt: (T, T) -> bool, size: T -> nat)
    ensures SumBy(StableSort(s, lt), size) == SumBy(s, size)
  {
    if s == [] {
    } else {
      SumSort(s[1..], lt, size);
      SumInsert(s[0], StableSort(s[1..], lt), lt, size);
    }
  }
}
