/**
 * Python's ordering of str and sorted() over a list of str. Strings compare
 * code point by code point from the left, and a proper prefix comes first.
 * sorted() is modelled by an insertion sort; the lemmas show its result is
 * ascending and a permutation of its input, which for a total order leaves
 * only one possible result.
 */
module StrOrder {
  import opened Dicts

  /** a < b on str. */
  predicate Less(a: string, b: string)
    decreases |a|
  {
    if a == [] then b != []
    else if b == [] then false
    else if a[0] != b[0] then a[0] < b[0]
    else Less(a[1..], b[1..])
  }

  /** a <= b on str. */
  predicate LessEq(a: string, b: string)
  {
    !Less(b, a)
  }

  lemma {:induction false} LessIrreflexive(a: string)
    ensures !Less(a, a)
  {
    if a != [] {
      LessIrreflexive(a[1..]);
    }
  }

  lemma {:induction false} LessTransitive(a: string, b: string, c: string)
    requires Less(a, b) && Less(b, c)
    ensures Less(a, c)
  {
    if a != [] && a[0] == b[0] && b[0] == c[0] {
      LessTransitive(a[1..], b[1..], c[1..]);
    }
  }

  lemma {:induction false} LessAsymmetric(a: string, b: string)
    requires Less(a, b)
    ensures LessEq(a, b)
  {
    if Less(b, a) {
      LessTransitive(a, b, a);
      LessIrreflexive(a);
    }
  }

  /** Two different strings are ordered one way or the other. */
  lemma {:induction false} LessTotal(a: string, b: string)
    ensures a == b || Less(a, b) || Less(b, a)
  {
    if a != [] && b != [] && a[0] == b[0] {
      LessTotal(a[1..], b[1..]);
      assert a == [a[0]] + a[1..] && b == [b[0]] + b[1..];
    }
  }

  lemma LessEqTransitive(a: string, b: string, c: string)
    requires LessEq(a, b) && LessEq(b, c)
    ensures LessEq(a, c)
  {
    LessTotal(a, b);
    LessTotal(b, c);
    if Less(c, a) {
      if a == b {
        LessIrreflexive(c);
      } else if b == c {
        LessIrreflexive(a);
      } else {
        LessTransitive(a, b, c);
        LessTransitive(c, a, c);
        LessIrreflexive(c);
      }
    }
  }

  /** Every element is at most every later one. */
  predicate Ascending(xs: seq<string>)
  {
    forall i, j :: 0 <= i < j < |xs| ==> LessEq(xs[i], xs[j])
  }

  /** x placed after every element of xs that is not larger than it. */
  function Insert(x: string, xs: seq<string>): (r: seq<string>)
    ensures |r| == |xs| + 1
  {
    if xs == [] || LessEq(xs[|xs| - 1], x) then xs + [x]
    else Insert(x, xs[..|xs| - 1]) + [xs[|xs| - 1]]
  }

  /** sorted(xs). */
  function Sorted(xs: seq<string>): (r: seq<string>)
    ensures |r| == |xs|
  {
    if xs == [] then [] else Insert(xs[|xs| - 1], Sorted(xs[..|xs| - 1]))
  }

  /** Everything in Insert(x, xs) is at most a bound of both x and xs. */
  lemma {:induction false} InsertedBelow(x: string, xs: seq<string>, y: string, i: nat)
    requires LessEq(x, y)
    requires forall j :: 0 <= j < |xs| ==> LessEq(xs[j], y)
    requires i < |Insert(x, xs)|
    ensures LessEq(Insert(x, xs)[i], y)
  {
    if xs == [] || LessEq(xs[|xs| - 1], x) {
      if i < |xs| {
        assert Insert(x, xs)[i] == xs[i];
      }
    } else if i < |xs| {
      InsertedBelow(x, xs[..|xs| - 1], y, i);
    }
  }

  lemma {:induction false} InsertAscending(x: string, xs: seq<string>)
    requires Ascending(xs)
    ensures Ascending(Insert(x, xs))
    ensures multiset(Insert(x, xs)) == multiset(xs) + multiset{x}
  {
    if xs == [] || LessEq(xs[|xs| - 1], x) {
      forall i | 0 <= i < |xs| ensures LessEq(xs[i], x) {
        if i < |xs| - 1 {
          LessEqTransitive(xs[i], xs[|xs| - 1], x);
        }
      }
    } else {
      var init, last := xs[..|xs| - 1], xs[|xs| - 1];
      assert xs == init + [last];
      assert Ascending(init);
      InsertAscending(x, init);
      var ins := Insert(x, init);
      LessAsymmetric(x, last);
      forall i | 0 <= i < |ins| ensures LessEq(ins[i], last) {
        InsertedBelow(x, init, last, i);
      }
    }
  }

  /** What sorted() gives: ascending and a permutation of its input. */
  lemma {:induction false} SortedAscending(xs: seq<string>)
    ensures Ascending(Sorted(xs))
    ensures multiset(Sorted(xs)) == multiset(xs)
  {
    if xs != [] {
      var init := xs[..|xs| - 1];
      assert xs == init + [xs[|xs| - 1]];
      SortedAscending(init);
      InsertAscending(xs[|xs| - 1], Sorted(init));
    }
  }

  /** Sorting a list without repetitions gives a strictly increasing list of the same elements. */
  lemma {:induction false} SortedDistinct(xs: seq<string>)
    requires Distinct(xs)
    ensures forall i, j :: 0 <= i < j < |Sorted(xs)| ==> Less(Sorted(xs)[i], Sorted(xs)[j])
    ensures forall x :: x in Sorted(xs) <==> x in xs
  {
    var r := Sorted(xs);
    SortedAscending(xs);
    forall x ensures x in r <==> x in xs {
      assert x in r <==> x in multiset(r);
    }
    DistinctPermutation(xs, r);
    forall i, j | 0 <= i < j < |r| ensures Less(r[i], r[j]) {
      LessTotal(r[i], r[j]);
    }
  }
}
