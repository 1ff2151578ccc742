/** Sorting by an integer key, as `list.sort(key=...)`, `sorted(...)` and
    `DataFrame.sort_values(...)` do in the scripts. A descending sort is an
    ascending sort on the negated key. */
module Sorting {

  /** Keys never decrease along `s`. */
  predicate SortedBy<T>(s: seq<T>, key: T -> int)
  {
    forall i, j :: 0 <= i < j < |s| ==> key(s[i]) <= key(s[j])
  }

  /** Insert `x` in front of the first element whose key is not smaller. */
  function Insert<T>(x: T, s: seq<T>, key: T -> int): (r: seq<T>)
    requires SortedBy(s, key)
    ensures SortedBy(r, key)
    ensures multiset(r) == multiset(s) + multiset{x}
    ensures |r| == |s| + 1
    ensures |s| > 0 ==> r[0] == x || r[0] == s[0]
  {
    if |s| == 0 then [x]
    else if key(x) <= key(s[0]) then [x] + s
    else
      var tail := Insert(x, s[1..], key);
      assert s == [s[0]] + s[1..];
      assert key(s[0]) <= key(tail[0]);
      [s[0]] + tail
  }

  /** Insertion sort; the result is ordered by `key` and is a permutation of
      the input. */
  function SortBy<T>(s: seq<T>, key: T -> int): (r: seq<T>)
    ensures SortedBy(r, key)
    ensures multiset(r) == multiset(s)
    ensures |r| == |s|
  {
    if |s| == 0 then []
    else
      assert s == [s[0]] + s[1..];
      Insert(s[0], SortBy(s[1..], key), key)
  }

  /** The elements of `s` whose key is `k`, in their order in `s`. */
  function WithKey<T>(s: seq<T>, key: T -> int, k: int): seq<T>
  {
    if |s| == 0 then [] else (if key(s[0]) == k then [s[0]] else []) + WithKey(s[1..], key, k)
  }

  /** Inserting puts `x` in front of every element with its key. */
  lemma {:induction false} InsertWithKey<T>(x: T, s: seq<T>, key: T -> int, k: int)
    requires SortedBy(s, key)
    ensures WithKey(Insert(x, s, key), key, k) == (if key(x) == k then [x] else []) + WithKey(s, key, k)
  {
    if |s| > 0 {
      if key(x) <= key(s[0]) {
        assert ([x] + s)[1..] == s;
      } else {
        assert SortedBy(s[1..], key);
        InsertWithKey(x, s[1..], key, k);
        var tail := Insert(x, s[1..], key);
        assert ([s[0]] + tail)[1..] == tail;
      }
    }
  }

  /** The sort is stable: the elements sharing a key keep their relative
      order, as Python's `list.sort` promises. */
  lemma {:induction false} SortByStable<T>(s: seq<T>, key: T -> int, k: int)
    ensures WithKey(SortBy(s, key), key, k) == WithKey(s, key, k)
  {
    if |s| > 0 {
      SortByStable(s[1..], key, k);
      InsertWithKey(s[0], SortBy(s[1..], key), key, k);
    }
  }

  /** Sorting neither adds nor drops values. */
  lemma SortByMembers<T>(s: seq<T>, key: T -> int)
    ensures forall x :: x in SortBy(s, key) <==> x in s
  {
    var r := SortBy(s, key);
    forall x
      ensures x in r <==> x in s
    {
      assert x in r <==> x in multiset(r);
      assert x in s <==> x in multiset(s);
    }
  }

  /** Where an element of the input ended up after sorting. */
  lemma SortByPosition<T>(s: seq<T>, key: T -> int, i: nat) returns (j: nat)
    requires i < |s|
    ensures j < |SortBy(s, key)| && SortBy(s, key)[j] == s[i]
  {
    var r := SortBy(s, key);
    assert s[i] in multiset(s);
    j :| 0 <= j < |r| && r[j] == s[i];
  }

  /** `f` applied to every element, in order. */
  function MapSeq<T, U>(s: seq<T>, f: T -> U): (r: seq<U>)
    ensures |r| == |s|
    ensures forall i :: 0 <= i < |s| ==> r[i] == f(s[i])
  {
    if |s| == 0 then [] else [f(s[0])] + MapSeq(s[1..], f)
  }

  /** Sorting by a key that only looks at `f`'s image keeps that order in
      the image. */
  lemma MapKeepsSorted<T, U>(s: seq<T>, f: T -> U, key: U -> int, key': T -> int)
    requires SortedBy(s, key') && forall y :: key'(y) == key(f(y))
    ensures SortedBy(MapSeq(s, f), key)
  {
    var r := MapSeq(s, f);
    forall i, j | 0 <= i < j < |r|
      ensures key(r[i]) <= key(r[j])
    {
      assert key'(s[i]) <= key'(s[j]);
    }
  }

  lemma {:induction false} InsertMap<T, U>(x: T, s: seq<T>, f: T -> U, key: U -> int, key': T -> int)
    requires SortedBy(s, key') && forall y :: key'(y) == key(f(y))
    ensures SortedBy(MapSeq(s, f), key)
    ensures MapSeq(Insert(x, s, key'), f) == Insert(f(x), MapSeq(s, f), key)
  {
    MapKeepsSorted(s, f, key, key');
    var ms := MapSeq(s, f);
    if |s| == 0 {
      assert MapSeq([x], f) == [f(x)];
    } else if key'(x) <= key'(s[0]) {
      assert MapSeq([x] + s, f) == [f(x)] + ms;
    } else {
      assert SortedBy(s[1..], key');
      InsertMap(x, s[1..], f, key, key');
      var tail := Insert(x, s[1..], key');
      assert ms[1..] == MapSeq(s[1..], f);
      assert MapSeq([s[0]] + tail, f) == [f(s[0])] + MapSeq(tail, f);
    }
  }

  /** Sorting then mapping equals mapping then sorting, when the key only
      looks at the image. */
  lemma {:induction false} SortByMap<T, U>(s: seq<T>, f: T -> U, key: U -> int, key': T -> int)
    requires forall y :: key'(y) == key(f(y))
    ensures MapSeq(SortBy(s, key'), f) == SortBy(MapSeq(s, f), key)
  {
    if |s| > 0 {
      SortByMap(s[1..], f, key, key');
      InsertMap(s[0], SortBy(s[1..], key'), f, key, key');
      assert MapSeq(s, f)[1..] == MapSeq(s[1..], f);
    }
  }

  /** Sorting an already sorted sequence leaves it as it is. */
  lemma {:induction false} SortBySorted<T>(s: seq<T>, key: T -> int)
    requires SortedBy(s, key)
    ensures SortBy(s, key) == s
  {
    if |s| > 0 {
      assert SortedBy(s[1..], key);
      SortBySorted(s[1..], key);
      if |s| > 1 {
        assert key(s[0]) <= key(s[1]);
      }
      assert [s[0]] + s[1..] == s;
    }
  }
}
