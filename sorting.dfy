/** Ordering rows by an integer key, ascending, as an `ORDER BY key ASC`
    clause does. Rows with equal keys keep their relative order. */
module Sorting {

  predicate SortedBy<T>(s: seq<T>, key: T -> int)
  {
    forall i, j :: 0 <= i < j < |s| ==> key(s[i]) <= key(s[j])
  }

  /** No row of `s` has a key below `b`. */
  predicate AtLeast<T>(s: seq<T>, key: T -> int, b: int)
  {
    forall i :: 0 <= i < |s| ==> b <= key(s[i])
  }

  /** `x` inserted into a sequence before the first row whose key is not
      smaller than its own. */
  function InsertBy<T>(x: T, s: seq<T>, key: T -> int): seq<T>
  {
    if s == [] then [x]
    else if key(x) <= key(s[0]) then [x] + s
    else [s[0]] + InsertBy(x, s[1..], key)
  }

  /** Inserting adds exactly `x`. */
  lemma {:induction false} InsertByPermutes<T>(x: T, s: seq<T>, key: T -> int)
    ensures multiset(InsertBy(x, s, key)) == multiset(s) + multiset{x}
  {
    if s != [] && key(x) > key(s[0]) {
      InsertByPermutes(x, s[1..], key);
      assert s == [s[0]] + s[1..];
    }
  }

  /** A lower bound of `s` and `x` is a lower bound of the result. */
  lemma {:induction false} InsertByAtLeast<T>(x: T, s: seq<T>, key: T -> int, b: int)
    requires AtLeast(s, key, b) && b <= key(x)
    ensures AtLeast(InsertBy(x, s, key), key, b)
  {
    if s != [] && key(x) > key(s[0]) {
      InsertByAtLeast(x, s[1..], key, b);
    }
  }

  /** Inserting into a sorted sequence keeps it sorted. */
  lemma {:induction false} InsertBySorted<T>(x: T, s: seq<T>, key: T -> int)
    requires SortedBy(s, key)
    ensures SortedBy(InsertBy(x, s, key), key)
  {
    if s != [] && key(x) > key(s[0]) {
      InsertBySorted(x, s[1..], key);
      InsertByAtLeast(x, s[1..], key, key(s[0]));
    }
  }

  /** `s` in ascending key order. Each row is inserted in front of the later
      rows with an equal key, so rows with equal keys keep their relative
      order. */
  function SortBy<T>(s: seq<T>, key: T -> int): seq<T>
  {
    if s == [] then [] else InsertBy(s[0], SortBy(s[1..], key), key)
  }

  /** Sorting yields a sorted permutation of its input. */
  lemma {:induction false} SortBySortsAndPermutes<T>(s: seq<T>, key: T -> int)
    ensures SortedBy(SortBy(s, key), key)
    ensures multiset(SortBy(s, key)) == multiset(s)
  {
    if s != [] {
      var tail := SortBy(s[1..], key);
      SortBySortsAndPermutes(s[1..], key);
      InsertBySorted(s[0], tail, key);
      InsertByPermutes(s[0], tail, key);
      assert s == [s[0]] + s[1..];
    }
  }
}
