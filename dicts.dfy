/**
 * Python dicts as the scanning loops use them: keys keep the slot of their
 * first insertion, a list value grows by append, a plain value is replaced by
 * the latest assignment. Every such loop consumes a list of (key, value)
 * pairs; the functions here say what the dict holds after a prefix of it.
 */
module Dicts {

  /** No element occurs twice. */
  predicate Distinct<T(==)>(xs: seq<T>)
  {
    forall i, j :: 0 <= i < j < |xs| ==> xs[i] != xs[j]
  }

  /** Appending an element not yet present keeps a sequence distinct. */
  lemma DistinctSnoc<T>(xs: seq<T>, x: T)
    requires Distinct(xs) && x !in xs
    ensures Distinct(xs + [x])
  {
    forall i, j | 0 <= i < j < |xs| + 1 ensures (xs + [x])[i] != (xs + [x])[j] {
      if j == |xs| { assert (xs + [x])[i] == xs[i]; }
    }
  }

  /** The front of a distinct sequence is distinct and does not hold its last element. */
  lemma DistinctInit<T>(xs: seq<T>)
    requires Distinct(xs) && xs != []
    ensures Distinct(xs[..|xs| - 1]) && xs[|xs| - 1] !in xs[..|xs| - 1]
  {
    var init := xs[..|xs| - 1];
    forall i, j | 0 <= i < j < |init| ensures init[i] != init[j] { assert init[i] == xs[i] && init[j] == xs[j]; }
    forall i | 0 <= i < |init| ensures init[i] != xs[|xs| - 1] { assert init[i] == xs[i]; }
  }

  /** In a sequence without repetitions each element occurs at most once. */
  lemma {:induction false} DistinctCount<T>(xs: seq<T>, x: T)
    requires Distinct(xs)
    ensures multiset(xs)[x] <= 1
  {
    if xs != [] {
      var init := xs[..|xs| - 1];
      assert xs == init + [xs[|xs| - 1]];
      DistinctInit(xs);
      DistinctCount(init, x);
      if x == xs[|xs| - 1] {
        assert x !in multiset(init);
      }
    }
  }

  /** A permutation of a sequence without repetitions has none either. */
  lemma DistinctPermutation<T>(xs: seq<T>, ys: seq<T>)
    requires Distinct(xs) && multiset(xs) == multiset(ys)
    ensures Distinct(ys)
  {
    forall i, j | 0 <= i < j < |ys| ensures ys[i] != ys[j] {
      if ys[i] == ys[j] {
        assert multiset(ys)[ys[i]] >= 2 by {
          assert ys == ys[..i] + [ys[i]] + ys[i + 1..j] + [ys[j]] + ys[j + 1..];
        }
        DistinctCount(xs, ys[i]);
      }
    }
  }

  /** list(set(xs)): each element once. Python leaves the order unspecified; this one keeps first occurrences. */
  function Dedup<T(==,!new)>(xs: seq<T>): (r: seq<T>)
    ensures Distinct(r)
    ensures forall x :: x in r <==> x in xs
  {
    if xs == [] then []
    else
      var init, x := xs[..|xs| - 1], xs[|xs| - 1];
      var d := Dedup(init);
      assert xs == init + [x];
      if x in d then d
      else
        DistinctSnoc(d, x);
        d + [x]
  }

  /** The lists of xss one after the other, as a loop of list.extend builds them. */
  function Flatten<T>(xss: seq<seq<T>>): seq<T>
  {
    if xss == [] then [] else Flatten(xss[..|xss| - 1]) + xss[|xss| - 1]
  }

  /** An element is in the flattened list iff it is in one of the lists. */
  lemma {:induction false} FlattenIff<T>(xss: seq<seq<T>>, x: T)
    ensures x in Flatten(xss) <==> exists i :: 0 <= i < |xss| && x in xss[i]
  {
    if xss != [] {
      var init := xss[..|xss| - 1];
      FlattenIff(init, x);
      if x in Flatten(init) {
        var i :| 0 <= i < |init| && x in init[i];
        assert xss[i] == init[i];
      }
      if exists i :: 0 <= i < |xss| && x in xss[i] {
        var i :| 0 <= i < |xss| && x in xss[i];
        if i < |init| { assert init[i] == xss[i]; }
      }
    }
  }

  /** One more list: extend by it. */
  lemma FlattenStep<T>(xss: seq<seq<T>>, i: nat)
    requires i < |xss|
    ensures Flatten(xss[..i + 1]) == Flatten(xss[..i]) + xss[i]
  {
    assert xss[..i + 1][..i] == xss[..i];
  }

  /** Some pair of xs has key k. */
  predicate Has<K(==,!new), V>(xs: seq<(K, V)>, k: K)
  {
    exists i :: 0 <= i < |xs| && xs[i].0 == k
  }

  /** The keys of xs in first-occurrence order: the iteration order of the dict the pairs were inserted into. */
  function KeysOf<K(==,!new), V>(xs: seq<(K, V)>): (r: seq<K>)
    ensures Distinct(r)
    ensures forall k :: k in r <==> Has(xs, k)
    ensures |r| <= |xs|
  {
    if xs == [] then []
    else
      var init, x := xs[..|xs| - 1], xs[|xs| - 1];
      var ks := KeysOf(init);
      HasSnoc(init, x);
      if x.0 in ks then ks
      else
        DistinctSnoc(ks, x.0);
        ks + [x.0]
  }

  /** The values paired with k, in their order in xs: the list a dict of lists holds for k. */
  function ValuesOf<K(==,!new), V>(xs: seq<(K, V)>, k: K): (r: seq<V>)
    ensures |r| <= |xs|
    ensures r != [] <==> Has(xs, k)
    ensures forall j :: 0 <= j < |r| ==> (k, r[j]) in xs
  {
    if xs == [] then []
    else
      var init, x := xs[..|xs| - 1], xs[|xs| - 1];
      var vs := ValuesOf(init, k);
      HasSnoc(init, x);
      assert forall j :: 0 <= j < |vs| ==> (k, vs[j]) in xs by {
        forall j | 0 <= j < |vs| ensures (k, vs[j]) in xs {
          var i :| 0 <= i < |init| && init[i] == (k, vs[j]);
          assert xs[i] == init[i];
        }
      }
      if x.0 == k then vs + [x.1] else vs
  }

  lemma HasSnoc<K(!new), V>(xs: seq<(K, V)>, x: (K, V))
    ensures forall k :: Has(xs + [x], k) <==> Has(xs, k) || x.0 == k
  {
    forall k ensures Has(xs + [x], k) <==> Has(xs, k) || x.0 == k {
      if Has(xs + [x], k) {
        var i :| 0 <= i < |xs| + 1 && (xs + [x])[i].0 == k;
        if i < |xs| { assert xs[i] == (xs + [x])[i]; }
      }
      if Has(xs, k) {
        var i :| 0 <= i < |xs| && xs[i].0 == k;
        assert (xs + [x])[i] == xs[i];
      }
      if x.0 == k {
        assert (xs + [x])[|xs|] == x;
      }
    }
  }

  /** One more pair: its key is appended unless already there. */
  lemma KeysOfSnoc<K(!new), V>(xs: seq<(K, V)>, x: (K, V))
    ensures KeysOf(xs + [x]) == if x.0 in KeysOf(xs) then KeysOf(xs) else KeysOf(xs) + [x.0]
  {
    assert (xs + [x])[..|xs|] == xs;
  }

  /** One more pair: its value is appended to its key's list, and no other list changes. */
  lemma ValuesOfSnoc<K(!new), V>(xs: seq<(K, V)>, x: (K, V), k: K)
    ensures ValuesOf(xs + [x], k) == if x.0 == k then ValuesOf(xs, k) + [x.1] else ValuesOf(xs, k)
  {
    assert (xs + [x])[..|xs|] == xs;
  }

  /** The values of a concatenation: those of the first part, then those of the second. */
  lemma {:induction false} ValuesOfConcat<K(!new), V>(a: seq<(K, V)>, b: seq<(K, V)>, k: K)
    ensures ValuesOf(a + b, k) == ValuesOf(a, k) + ValuesOf(b, k)
    decreases |b|
  {
    if b == [] {
      assert a + b == a;
    } else {
      var init, x := b[..|b| - 1], b[|b| - 1];
      assert a + b == (a + init) + [x];
      ValuesOfConcat(a, init, k);
      ValuesOfSnoc(a + init, x, k);
    }
  }

  /** Every pair's value is in its key's list. */
  lemma {:induction false} ValueInGroup<K(!new), V>(xs: seq<(K, V)>, i: nat)
    requires i < |xs|
    ensures xs[i].1 in ValuesOf(xs, xs[i].0)
  {
    var init := xs[..|xs| - 1];
    if i < |xs| - 1 {
      assert init[i] == xs[i];
      ValueInGroup(init, i);
    }
    assert xs == init + [xs[|xs| - 1]];
    ValuesOfSnoc(init, xs[|xs| - 1], xs[i].0);
  }

  // ------------------------------------------------------------ dict of lists

  /** keys and groups are the dict of lists that appending every pair of xs builds. */
  ghost predicate Grouped<K(!new), V>(keys: seq<K>, groups: map<K, seq<V>>, xs: seq<(K, V)>)
  {
    keys == KeysOf(xs) &&
    (forall k :: k in groups <==> k in keys) &&
    (forall k :: k in groups ==> groups[k] == ValuesOf(xs, k))
  }

  /** "if k not in d: d[k] = []" then "d[k].append(v)" keeps the dict in step with the pairs. */
  lemma GroupedStep<K(!new), V>(keys: seq<K>, groups: map<K, seq<V>>, xs: seq<(K, V)>, x: (K, V))
    requires Grouped(keys, groups, xs)
    ensures Grouped(if x.0 in groups then keys else keys + [x.0],
                    groups[x.0 := (if x.0 in groups then groups[x.0] else []) + [x.1]], xs + [x])
  {
    KeysOfSnoc(xs, x);
    forall k ensures ValuesOf(xs + [x], k) == if x.0 == k then ValuesOf(xs, k) + [x.1] else ValuesOf(xs, k) {
      ValuesOfSnoc(xs, x, k);
    }
    if x.0 !in groups {
      assert !Has(xs, x.0);
    }
  }

  /** The sum of the group sizes of the given keys. */
  function GroupSizes<K(==,!new), V>(keys: seq<K>, xs: seq<(K, V)>): nat
  {
    if keys == [] then 0 else GroupSizes(keys[..|keys| - 1], xs) + |ValuesOf(xs, keys[|keys| - 1])|
  }

  /** The groups partition the pairs: their sizes add up to the number of pairs. */
  lemma {:induction false} GroupsPartition<K(!new), V>(xs: seq<(K, V)>)
    ensures GroupSizes(KeysOf(xs), xs) == |xs|
  {
    if xs != [] {
      var init, x := xs[..|xs| - 1], xs[|xs| - 1];
      assert xs == init + [x];
      GroupsPartition(init);
      KeysOfSnoc(init, x);
      var ks := KeysOf(init);
      if x.0 in ks {
        SizesBump(ks, init, x);
      } else {
        SizesUnbumped(ks, init, x);
        ValuesOfSnoc(init, x, x.0);
      }
    }
  }

  /** A pair whose key is not among keys leaves their sizes alone. */
  lemma {:induction false} SizesUnbumped<K(!new), V>(keys: seq<K>, xs: seq<(K, V)>, x: (K, V))
    requires x.0 !in keys
    ensures GroupSizes(keys, xs + [x]) == GroupSizes(keys, xs)
  {
    if keys != [] {
      SizesUnbumped(keys[..|keys| - 1], xs, x);
      ValuesOfSnoc(xs, x, keys[|keys| - 1]);
    }
  }

  /** A pair whose key occurs once among keys adds one to their sizes. */
  lemma {:induction false} SizesBump<K(!new), V>(keys: seq<K>, xs: seq<(K, V)>, x: (K, V))
    requires Distinct(keys) && x.0 in keys
    ensures GroupSizes(keys, xs + [x]) == GroupSizes(keys, xs) + 1
  {
    var init, last := keys[..|keys| - 1], keys[|keys| - 1];
    assert Distinct(init) by {
      forall i, j | 0 <= i < j < |init| ensures init[i] != init[j] { assert init[i] == keys[i] && init[j] == keys[j]; }
    }
    ValuesOfSnoc(xs, x, last);
    if last == x.0 {
      assert x.0 !in init by {
        forall i | 0 <= i < |init| ensures init[i] != x.0 { assert init[i] == keys[i]; }
      }
      SizesUnbumped(init, xs, x);
    } else {
      assert x.0 in init by {
        var i :| 0 <= i < |keys| && keys[i] == x.0;
        assert init[i] == keys[i];
      }
      SizesBump(init, xs, x);
    }
  }

  // ------------------------------------------------------------ dict of counts

  /** keys and counts are the dict that "d[k] = d.get(k, 0) + 1" for every pair of xs builds. */
  ghost predicate Counted<K(!new), V>(keys: seq<K>, counts: map<K, nat>, xs: seq<(K, V)>)
  {
    keys == KeysOf(xs) &&
    (forall k :: k in counts <==> k in keys) &&
    (forall k :: k in counts ==> counts[k] == |ValuesOf(xs, k)|)
  }

  /** The keys after counting k: k is appended when it is new. */
  function CountKeys<K(==)>(keys: seq<K>, counts: map<K, nat>, k: K): seq<K>
  {
    if k in counts then keys else keys + [k]
  }

  /** The counts after "d[k] = d.get(k, 0) + 1". */
  function CountBump<K(==)>(counts: map<K, nat>, k: K): map<K, nat>
  {
    counts[k := (if k in counts then counts[k] else 0) + 1]
  }

  /** One more pair adds one to its key's count, appending the key when it is new. */
  lemma CountedStep<K(!new), V>(keys: seq<K>, counts: map<K, nat>, xs: seq<(K, V)>, x: (K, V))
    requires Counted(keys, counts, xs)
    ensures Counted(CountKeys(keys, counts, x.0), CountBump(counts, x.0), xs + [x])
  {
    KeysOfSnoc(xs, x);
    var counts' := CountBump(counts, x.0);
    forall k | k in counts' ensures counts'[k] == |ValuesOf(xs + [x], k)| {
      ValuesOfSnoc(xs, x, k);
      if k == x.0 && x.0 !in counts {
        assert !Has(xs, x.0);
      }
    }
  }

  /** The sum of the values of the given keys; a missing key adds nothing. */
  function SumOf<K(==)>(keys: seq<K>, m: map<K, nat>): nat
  {
    if keys == [] then 0
    else SumOf(keys[..|keys| - 1], m) + (if keys[|keys| - 1] in m then m[keys[|keys| - 1]] else 0)
  }

  lemma {:induction false} SumIsGroupSizes<K(!new), V>(keys: seq<K>, m: map<K, nat>, xs: seq<(K, V)>)
    requires forall k :: k in keys ==> k in m && m[k] == |ValuesOf(xs, k)|
    ensures SumOf(keys, m) == GroupSizes(keys, xs)
  {
    if keys != [] {
      SumIsGroupSizes(keys[..|keys| - 1], m, xs);
    }
  }

  /** The counts add up to the number of pairs counted. */
  lemma CountedSum<K(!new), V>(keys: seq<K>, counts: map<K, nat>, xs: seq<(K, V)>)
    requires Counted(keys, counts, xs)
    ensures SumOf(keys, counts) == |xs|
  {
    GroupsPartition(xs);
    SumIsGroupSizes(keys, counts, xs);
  }

  // ------------------------------------------------------------ dict of latest values

  function Last<T>(s: seq<T>): T
    requires s != []
  {
    s[|s| - 1]
  }

  /** keys and m are the dict that "d[k] = v" for every pair of xs builds: first slot, last value. */
  ghost predicate Latest<K(!new), V>(keys: seq<K>, m: map<K, V>, xs: seq<(K, V)>)
  {
    keys == KeysOf(xs) &&
    (forall k :: k in m <==> k in keys) &&
    (forall k :: k in m ==> ValuesOf(xs, k) != [] && m[k] == Last(ValuesOf(xs, k)))
  }

  lemma LatestStep<K(!new), V>(keys: seq<K>, m: map<K, V>, xs: seq<(K, V)>, x: (K, V))
    requires Latest(keys, m, xs)
    ensures Latest(if x.0 in m then keys else keys + [x.0], m[x.0 := x.1], xs + [x])
  {
    var m' := m[x.0 := x.1];
    KeysOfSnoc(xs, x);
    forall k | k in m' ensures ValuesOf(xs + [x], k) != [] && m'[k] == Last(ValuesOf(xs + [x], k)) {
      ValuesOfSnoc(xs, x, k);
      if k != x.0 {
        assert m'[k] == m[k];
      }
    }
  }

  /** dict.values() of the latest-value dict: one value per key, in key order. */
  function LatestValues<K(==,!new), V>(xs: seq<(K, V)>): (r: seq<V>)
    ensures |r| == |KeysOf(xs)|
    ensures forall i :: 0 <= i < |r| ==> ValuesOf(xs, KeysOf(xs)[i]) != [] && r[i] == Last(ValuesOf(xs, KeysOf(xs)[i]))
  {
    var ks := KeysOf(xs);
    seq(|ks|, i requires 0 <= i < |ks| => assert ks[i] in ks; Last(ValuesOf(xs, ks[i])))
  }
}
