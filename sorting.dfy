/**
 * list.sort(key=...) with a key that is a pair compared lexicographically.
 * Python's sort is stable; its result is modelled by an insertion sort
 * that puts each element after every earlier one whose key is not larger.
 * A sort that is ordered, a permutation and stable has only one possible
 * result, so the lemmas below pin down what list.sort returns.
 */
module Sorting {
  type Key = (int, int)

  predicate Le(a: Key, b: Key)
  {
    a.0 < b.0 || (a.0 == b.0 && a.1 <= b.1)
  }

  predicate SortedBy<T>(xs: seq<T>, key: T -> Key)
  {
    forall i, j :: 0 <= i < j < |xs| ==> Le(key(xs[i]), key(xs[j]))
  }

  /** The elements with key k, in their order in xs. */
  function WithKey<T>(xs: seq<T>, key: T -> Key, k: Key): seq<T>
  {
    if xs == [] then []
    else WithKey(xs[..|xs| - 1], key, k) + (if key(xs[|xs| - 1]) == k then [xs[|xs| - 1]] else [])
  }

  /** x placed after every element of xs whose key is not larger than its own. */
  function Insert<T>(x: T, xs: seq<T>, key: T -> Key): (r: seq<T>)
    ensures |r| == |xs| + 1
  {
    if xs == [] || Le(key(xs[|xs| - 1]), key(x)) then xs + [x]
    else Insert(x, xs[..|xs| - 1], key) + [xs[|xs| - 1]]
  }

  /** The stable sort of xs by key. */
  function SortBy<T>(xs: seq<T>, key: T -> Key): (r: seq<T>)
    ensures |r| == |xs|
  {
    if xs == [] then [] else Insert(xs[|xs| - 1], SortBy(xs[..|xs| - 1], key), key)
  }

  lemma WithKeySnoc<T>(xs: seq<T>, x: T, key: T -> Key, k: Key)
    ensures WithKey(xs + [x], key, k) == WithKey(xs, key, k) + (if key(x) == k then [x] else [])
  {
    assert (xs + [x])[..|xs|] == xs;
  }

  lemma {:induction false} InsertSorted<T>(x: T, xs: seq<T>, key: T -> Key)
    requires SortedBy(xs, key)
    ensures SortedBy(Insert(x, xs, key), key)
    ensures multiset(Insert(x, xs, key)) == multiset(xs) + multiset{x}
  {
    if xs == [] || Le(key(xs[|xs| - 1]), key(x)) {
    } else {
      var init, last := xs[..|xs| - 1], xs[|xs| - 1];
      assert xs == init + [last];
      assert SortedBy(init, key);
      InsertSorted(x, init, key);
      var ins := Insert(x, init, key);
      forall i | 0 <= i < |ins| ensures Le(key(ins[i]), key(last)) {
        InsertedBelow(x, init, key, last, i);
      }
    }
  }

  /** Everything in Insert(x, xs) is at most a bound of both x and xs. */
  lemma {:induction false} InsertedBelow<T>(x: T, xs: seq<T>, key: T -> Key, y: T, i: nat)
    requires Le(key(x), key(y)) || !Le(key(y), key(x))
    requires forall j :: 0 <= j < |xs| ==> Le(key(xs[j]), key(y))
    requires i < |Insert(x, xs, key)|
    ensures Le(key(Insert(x, xs, key)[i]), key(y))
  {
    if xs == [] || Le(key(xs[|xs| - 1]), key(x)) {
      if i < |xs| {
        assert Insert(x, xs, key)[i] == xs[i];
      }
    } else if i < |xs| {
      InsertedBelow(x, xs[..|xs| - 1], key, y, i);
    }
  }

  /** Insert adds x to the elements of its key and leaves the other keys alone. */
  lemma {:induction false} InsertWithKey<T>(x: T, xs: seq<T>, key: T -> Key, k: Key)
    ensures WithKey(Insert(x, xs, key), key, k) == WithKey(xs, key, k) + (if key(x) == k then [x] else [])
  {
    if xs == [] || Le(key(xs[|xs| - 1]), key(x)) {
      WithKeySnoc(xs, x, key, k);
    } else {
      var init, last := xs[..|xs| - 1], xs[|xs| - 1];
      assert xs == init + [last];
      InsertWithKey(x, init, key, k);
      WithKeySnoc(Insert(x, init, key), last, key, k);
      WithKeySnoc(init, last, key, k);
      assert key(last) != key(x);
    }
  }

  /** What list.sort gives: ordered by key and a permutation of its input. */
  lemma {:induction false} SortBySorted<T>(xs: seq<T>, key: T -> Key)
    ensures SortedBy(SortBy(xs, key), key)
    ensures multiset(SortBy(xs, key)) == multiset(xs)
  {
    if xs != [] {
      var init := xs[..|xs| - 1];
      assert xs == init + [xs[|xs| - 1]];
      SortBySorted(init, key);
      InsertSorted(xs[|xs| - 1], SortBy(init, key), key);
    }
  }

  /** The sort is stable: the elements of each key keep their input order. */
  lemma {:induction false} SortByStable<T>(xs: seq<T>, key: T -> Key, k: Key)
    ensures WithKey(SortBy(xs, key), key, k) == WithKey(xs, key, k)
  {
    if xs != [] {
      var init := xs[..|xs| - 1];
      SortByStable(init, key, k);
      InsertWithKey(xs[|xs| - 1], SortBy(init, key), key, k);
    }
  }
}
