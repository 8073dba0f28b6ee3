/**
 * Sequence helpers shared by the feed engine: first-occurrence de-duplication by a key
 * (the `seen` dictionaries of the count getters), a stable sort by an integer key
 * (JavaScript's `Array.prototype.sort`, stable since ES2019) and concatenation of chunks.
 */
module Seqs {

  /** The set of keys of the elements of `s`. */
  function KeySet<T(==), K(==)>(s: seq<T>, key: T -> K): set<K> {
    set x | x in s :: key(x)
  }

  /** The elements of `s` whose key was not seen before, in order of first occurrence. */
  function DistinctBy<T(==), K(==)>(s: seq<T>, key: T -> K): seq<T> {
    if s == [] then []
    else
      var r := DistinctBy(s[..|s| - 1], key);
      if key(s[|s| - 1]) in KeySet(r, key) then r else r + [s[|s| - 1]]
  }

  function Identity<K>(x: K): K { x }

  /** The values of `s` without repetitions, in order of first occurrence. */
  function Distinct<K(==)>(s: seq<K>): seq<K> {
    DistinctBy(s, Identity)
  }

  predicate KeysUnique<T, K(==)>(s: seq<T>, key: T -> K) {
    forall i, j :: 0 <= i < j < |s| ==> key(s[i]) != key(s[j])
  }

  /** Index of the first element of `s` whose key is `k`. */
  function FirstIndex<T(==), K(==)>(s: seq<T>, key: T -> K, k: K): (i: nat)
    requires k in KeySet(s, key)
    ensures i < |s| && key(s[i]) == k
    ensures forall j :: 0 <= j < i ==> key(s[j]) != k
  {
    if key(s[0]) == k then 0
    else
      assert k in KeySet(s[1..], key) by {
        var x :| x in s && key(x) == k;
        var m :| 0 <= m < |s| && s[m] == x;
        assert s[1..][m - 1] == x;
      }
      1 + FirstIndex(s[1..], key, k)
  }

  lemma KeySetAppend<T, K>(s: seq<T>, x: T, key: T -> K)
    ensures KeySet(s + [x], key) == KeySet(s, key) + {key(x)}
  {
    assert forall y :: y in s + [x] <==> y in s || y == x;
  }

  /** DistinctBy keeps one element per key and loses no key. */
  lemma {:induction false} DistinctByKeys<T, K>(s: seq<T>, key: T -> K)
    ensures KeysUnique(DistinctBy(s, key), key)
    ensures KeySet(DistinctBy(s, key), key) == KeySet(s, key)
    ensures |DistinctBy(s, key)| == |KeySet(s, key)|
  {
    if s != [] {
      var p, x := s[..|s| - 1], s[|s| - 1];
      assert s == p + [x];
      DistinctByKeys(p, key);
      var r := DistinctBy(p, key);
      KeySetAppend(p, x, key);
      if key(x) !in KeySet(r, key) {
        DistinctByNewKey(r, x, key);
      }
    }
  }

  /** Appending an element with a key not seen yet keeps keys unique and adds one key. */
  lemma DistinctByNewKey<T, K>(r: seq<T>, x: T, key: T -> K)
    requires KeysUnique(r, key) && key(x) !in KeySet(r, key)
    ensures KeysUnique(r + [x], key)
    ensures KeySet(r + [x], key) == KeySet(r, key) + {key(x)}
    ensures |KeySet(r + [x], key)| == |KeySet(r, key)| + 1
  {
    KeySetAppend(r, x, key);
    assert forall i :: 0 <= i < |r| ==> r[i] in r;
  }

  /** Every element DistinctBy keeps is the first element of `s` with its key. */
  lemma {:induction false} DistinctByFirst<T, K>(s: seq<T>, key: T -> K)
    ensures forall j :: 0 <= j < |DistinctBy(s, key)| ==>
              key(DistinctBy(s, key)[j]) in KeySet(s, key) &&
              DistinctBy(s, key)[j] == s[FirstIndex(s, key, key(DistinctBy(s, key)[j]))]
  {
    if s != [] {
      var p, x := s[..|s| - 1], s[|s| - 1];
      assert s == p + [x];
      DistinctByFirst(p, key);
      DistinctByKeys(p, key);
      var r := DistinctBy(p, key);
      FirstIndexPrefix(p, x, key);
      forall j | 0 <= j < |DistinctBy(s, key)|
        ensures key(DistinctBy(s, key)[j]) in KeySet(s, key) &&
                DistinctBy(s, key)[j] == s[FirstIndex(s, key, key(DistinctBy(s, key)[j]))]
      {
        if j < |r| {
          assert DistinctBy(s, key)[j] == r[j];
          assert r[j] in r;
        } else {
          FirstIndexNew(p, x, key);
        }
      }
    }
  }

  /** The key of `a` occurs in `s` strictly before the key of `b` first does. */
  predicate KeyBefore<T(==), K(==)>(s: seq<T>, key: T -> K, a: T, b: T) {
    key(a) in KeySet(s, key) && key(b) in KeySet(s, key) &&
    FirstIndex(s, key, key(a)) < FirstIndex(s, key, key(b))
  }

  /** DistinctBy lists its elements in the order in which their keys first occur in `s`. */
  lemma DistinctByOrder<T, K>(s: seq<T>, key: T -> K)
    ensures forall i, j :: 0 <= i < j < |DistinctBy(s, key)| ==>
              KeyBefore(s, key, DistinctBy(s, key)[i], DistinctBy(s, key)[j])
  {
    forall i, j | 0 <= i < j < |DistinctBy(s, key)|
      ensures KeyBefore(s, key, DistinctBy(s, key)[i], DistinctBy(s, key)[j])
    {
      DistinctByPairOrder(s, key, i, j);
    }
  }

  lemma {:induction false} DistinctByPairOrder<T, K>(s: seq<T>, key: T -> K, i: nat, j: nat)
    requires i < j < |DistinctBy(s, key)|
    ensures KeyBefore(s, key, DistinctBy(s, key)[i], DistinctBy(s, key)[j])
  {
    var p, x := s[..|s| - 1], s[|s| - 1];
    assert s == p + [x];
    var r := DistinctBy(p, key);
    var d := DistinctBy(s, key);
    DistinctByKeys(p, key);
    FirstIndexPrefix(p, x, key);
    assert d[i] == r[i] && r[i] in r;
    var ki := key(r[i]);
    assert ki in KeySet(p, key);
    if j < |r| {
      assert d[j] == r[j] && r[j] in r;
      DistinctByPairOrder(p, key, i, j);
    } else {
      assert d == r + [x] && d[j] == x;
      FirstIndexNew(p, x, key);
      assert FirstIndex(p, key, ki) < |p|;
    }
  }

  lemma FirstIndexPrefix<T, K>(p: seq<T>, x: T, key: T -> K)
    ensures forall k :: k in KeySet(p, key) ==> k in KeySet(p + [x], key) && FirstIndex(p + [x], key, k) == FirstIndex(p, key, k)
  {
    forall k | k in KeySet(p, key)
      ensures k in KeySet(p + [x], key) && FirstIndex(p + [x], key, k) == FirstIndex(p, key, k)
    {
      KeySetAppend(p, x, key);
      FirstIndexUnique(p + [x], key, k, FirstIndex(p, key, k));
    }
  }

  lemma FirstIndexNew<T, K>(p: seq<T>, x: T, key: T -> K)
    requires key(x) !in KeySet(p, key)
    ensures key(x) in KeySet(p + [x], key) && FirstIndex(p + [x], key, key(x)) == |p|
  {
    KeySetAppend(p, x, key);
    forall j | 0 <= j < |p| ensures key((p + [x])[j]) != key(x) {
      assert (p + [x])[j] in p;
    }
    FirstIndexUnique(p + [x], key, key(x), |p|);
  }

  lemma FirstIndexUnique<T, K>(s: seq<T>, key: T -> K, k: K, i: nat)
    requires i < |s| && key(s[i]) == k
    requires forall j :: 0 <= j < i ==> key(s[j]) != k
    ensures k in KeySet(s, key) && FirstIndex(s, key, k) == i
  {
    assert s[i] in s;
  }

  /** Distinct keeps each value once, loses none, and lists them in order of first occurrence. */
  lemma DistinctFacts<K>(s: seq<K>)
    ensures forall i, j :: 0 <= i < j < |Distinct(s)| ==> Distinct(s)[i] != Distinct(s)[j]
    ensures forall x :: x in Distinct(s) <==> x in s
    ensures |Distinct(s)| <= |s|
    ensures forall i, j :: 0 <= i < j < |Distinct(s)| ==> KeyBefore(s, Identity, Distinct(s)[i], Distinct(s)[j])
  {
    var d := Distinct(s);
    DistinctByKeys(s, Identity);
    DistinctByOrder(s, Identity);
    forall x ensures x in d <==> x in s {
      assert x in d <==> Identity(x) in KeySet(d, Identity);
      assert x in s <==> Identity(x) in KeySet(s, Identity);
    }
    DistinctByLength(s, Identity);
  }

  lemma {:induction false} DistinctByLength<T, K>(s: seq<T>, key: T -> K)
    ensures |DistinctBy(s, key)| <= |s|
  {
    if s != [] {
      DistinctByLength(s[..|s| - 1], key);
    }
  }

  /**
   * The loop of the count getters: walk the sequence once, remember the keys seen,
   * and keep an element only when its key is new.
   */
  method CollectDistinct<T(==), K(==)>(s: seq<T>, key: T -> K) returns (r: seq<T>)
    ensures r == DistinctBy(s, key)
  {
    r := [];
    var seen: set<K> := {};
    var i := 0;
    while i < |s|
      invariant 0 <= i <= |s|
      invariant r == DistinctBy(s[..i], key)
      invariant seen == KeySet(r, key)
    {
      assert s[..i + 1][..i] == s[..i];
      if key(s[i]) !in seen {
        KeySetAppend(r, s[i], key);
        seen := seen + {key(s[i])};
        r := r + [s[i]];
      }
      i := i + 1;
    }
    assert s[..|s|] == s;
  }

  // ---------------------------------------------------------------------------
  // Dropping every element with a given key, as `filter(a => key(a) !== k)` does.

  function WithoutKey<T, K(==)>(s: seq<T>, key: T -> K, k: K): seq<T> {
    if s == [] then []
    else WithoutKey(s[..|s| - 1], key, k) + (if key(s[|s| - 1]) == k then [] else [s[|s| - 1]])
  }

  /** WithoutKey keeps exactly the elements whose key differs from `k`, in order. */
  lemma {:induction false} WithoutKeyMembers<T, K>(s: seq<T>, key: T -> K, k: K)
    ensures forall x :: x in WithoutKey(s, key, k) <==> x in s && key(x) != k
    ensures KeySet(WithoutKey(s, key, k), key) == KeySet(s, key) - {k}
  {
    if s != [] {
      var p, l := s[..|s| - 1], s[|s| - 1];
      assert s == p + [l];
      WithoutKeyMembers(p, key, k);
    }
    var w := WithoutKey(s, key, k);
    forall y ensures y in KeySet(w, key) <==> y in KeySet(s, key) && y != k {
      if y in KeySet(s, key) && y != k {
        var x :| x in s && key(x) == y;
        assert x in w;
      }
      if y in KeySet(w, key) {
        var x :| x in w && key(x) == y;
        assert x in s && key(x) != k;
      }
    }
    assert KeySet(w, key) == KeySet(s, key) - {k};
  }

  /** Without a member with key `k`, nothing is dropped. */
  lemma {:induction false} WithoutAbsentKey<T, K>(s: seq<T>, key: T -> K, k: K)
    requires k !in KeySet(s, key)
    ensures WithoutKey(s, key, k) == s
  {
    if s != [] {
      var p, l := s[..|s| - 1], s[|s| - 1];
      assert s == p + [l];
      KeySetAppend(p, l, key);
      WithoutAbsentKey(p, key, k);
    }
  }

  /** When keys are unique, dropping the key of `s[i]` removes exactly `s[i]`. */
  lemma {:induction false} WithoutUniqueKey<T, K>(s: seq<T>, key: T -> K, i: nat)
    requires i < |s| && KeysUnique(s, key)
    ensures WithoutKey(s, key, key(s[i])) == s[..i] + s[i + 1..]
  {
    var p, l := s[..|s| - 1], s[|s| - 1];
    assert s == p + [l];
    assert KeysUnique(p, key);
    if i == |s| - 1 {
      assert key(s[i]) !in KeySet(p, key) by {
        forall x | x in p ensures key(x) != key(s[i]) {
          var m :| 0 <= m < |p| && p[m] == x;
        }
      }
      WithoutAbsentKey(p, key, key(s[i]));
      assert s[..i] + s[i + 1..] == p;
    } else {
      WithoutUniqueKey(p, key, i);
      assert key(l) != key(s[i]);
      assert s[..i] + s[i + 1..] == (p[..i] + p[i + 1..]) + [l];
    }
  }

  lemma KeysUniqueAppend<T, K>(s: seq<T>, x: T, key: T -> K)
    requires KeysUnique(s, key) && key(x) !in KeySet(s, key)
    ensures KeysUnique(s + [x], key)
  {
    forall i | 0 <= i < |s| ensures key((s + [x])[i]) != key(x) {
      assert (s + [x])[i] in s;
    }
  }

  lemma KeysUniqueRemoveAt<T, K>(s: seq<T>, key: T -> K, i: nat)
    requires i < |s| && KeysUnique(s, key)
    ensures KeysUnique(s[..i] + s[i + 1..], key)
  {
    var r := s[..i] + s[i + 1..];
    forall m, n | 0 <= m < n < |r| ensures key(r[m]) != key(r[n]) {
      var m' := if m < i then m else m + 1;
      var n' := if n < i then n else n + 1;
      assert r[m] == s[m'] && r[n] == s[n'];
    }
  }

  // ---------------------------------------------------------------------------
  // Stable sort by an integer key, as insertion sort.

  predicate SortedBy<T>(s: seq<T>, key: T -> int) {
    forall i, j :: 0 <= i < j < |s| ==> key(s[i]) <= key(s[j])
  }

  /** A subsequence-like selection of a sorted sequence, extended by an element no smaller than all of it, stays sorted. */
  lemma SortedSelectAppend<T>(x: seq<T>, p: seq<T>, a: T, key: T -> int)
    requires SortedBy(x, key) && SortedBy(p + [a], key)
    requires forall y :: y in x ==> y in p
    ensures SortedBy(x + [a], key)
  {
    forall y | y in x ensures key(y) <= key(a) {
      var m :| 0 <= m < |p| && p[m] == y;
      assert (p + [a])[m] == y && (p + [a])[|p|] == a;
    }
    var t := x + [a];
    forall i, j | 0 <= i < j < |t| ensures key(t[i]) <= key(t[j]) {
      if j == |x| {
        assert t[i] in x;
      }
    }
  }

  /** Insert `x` after every element whose key is not greater than its own. */
  function InsertBy<T>(r: seq<T>, x: T, key: T -> int): seq<T> {
    if r == [] then [x]
    else if key(r[|r| - 1]) <= key(x) then r + [x]
    else InsertBy(r[..|r| - 1], x, key) + [r[|r| - 1]]
  }

  function SortBy<T>(s: seq<T>, key: T -> int): seq<T> {
    if s == [] then [] else InsertBy(SortBy(s[..|s| - 1], key), s[|s| - 1], key)
  }

  /** The elements of `s` whose key is `k`, in the order of `s`. */
  function WithKey<T>(s: seq<T>, key: T -> int, k: int): seq<T> {
    if s == [] then []
    else WithKey(s[..|s| - 1], key, k) + (if key(s[|s| - 1]) == k then [s[|s| - 1]] else [])
  }

  lemma {:induction false} InsertByMultiset<T>(r: seq<T>, x: T, key: T -> int)
    ensures multiset(InsertBy(r, x, key)) == multiset(r) + multiset{x}
  {
    if r != [] && key(r[|r| - 1]) > key(x) {
      var p := r[..|r| - 1];
      assert r == p + [r[|r| - 1]];
      InsertByMultiset(p, x, key);
    }
  }

  lemma {:induction false} InsertBySorted<T>(r: seq<T>, x: T, key: T -> int)
    requires SortedBy(r, key)
    ensures SortedBy(InsertBy(r, x, key), key)
  {
    if r != [] && key(r[|r| - 1]) > key(x) {
      var p, l := r[..|r| - 1], r[|r| - 1];
      assert r == p + [l];
      InsertBySorted(p, x, key);
      InsertByMultiset(p, x, key);
      var q := InsertBy(p, x, key);
      forall i | 0 <= i < |q| ensures key(q[i]) <= key(l) {
        assert q[i] in multiset(q);
        assert q[i] in multiset(p) || q[i] == x;
      }
    }
  }

  lemma WithKeyAppend<T>(s: seq<T>, y: T, key: T -> int, k: int)
    ensures WithKey(s + [y], key, k) == WithKey(s, key, k) + (if key(y) == k then [y] else [])
  {
    assert (s + [y])[..|s|] == s;
  }

  lemma {:induction false} InsertByWithKey<T>(r: seq<T>, x: T, key: T -> int, k: int)
    requires SortedBy(r, key)
    ensures WithKey(InsertBy(r, x, key), key, k) == WithKey(r, key, k) + (if key(x) == k then [x] else [])
  {
    if r == [] {
      WithKeyAppend([], x, key, k);
      assert [] + [x] == [x];
    } else if key(r[|r| - 1]) <= key(x) {
      WithKeyAppend(r, x, key, k);
    } else {
      var p, l := r[..|r| - 1], r[|r| - 1];
      assert r == p + [l];
      assert SortedBy(p, key);
      InsertByWithKey(p, x, key, k);
      WithKeyAppend(InsertBy(p, x, key), l, key, k);
      WithKeyAppend(p, l, key, k);
      SwapSingles(WithKey(p, key, k), x, l, key(x) == k, key(l) == k);
    }
  }

  /** Two optional singletons that are never both present commute. */
  lemma SwapSingles<T>(w: seq<T>, x: T, l: T, bx: bool, bl: bool)
    requires !(bx && bl)
    ensures w + (if bx then [x] else []) + (if bl then [l] else []) == w + (if bl then [l] else []) + (if bx then [x] else [])
  {
  }

  /** SortBy sorts, permutes, and keeps elements with equal keys in their input order. */
  lemma {:induction false} SortByFacts<T>(s: seq<T>, key: T -> int)
    ensures SortedBy(SortBy(s, key), key)
    ensures multiset(SortBy(s, key)) == multiset(s)
    ensures forall k :: WithKey(SortBy(s, key), key, k) == WithKey(s, key, k)
  {
    if s != [] {
      var p := s[..|s| - 1];
      assert s == p + [s[|s| - 1]];
      SortByFacts(p, key);
      InsertBySorted(SortBy(p, key), s[|s| - 1], key);
      InsertByMultiset(SortBy(p, key), s[|s| - 1], key);
      forall k ensures WithKey(SortBy(s, key), key, k) == WithKey(s, key, k) {
        InsertByWithKey(SortBy(p, key), s[|s| - 1], key, k);
      }
    }
  }

  /** When every key is `k`, the elements with key `k` are all of them. */
  lemma {:induction false} WithKeyAll<T>(s: seq<T>, key: T -> int, k: int)
    requires forall i :: 0 <= i < |s| ==> key(s[i]) == k
    ensures WithKey(s, key, k) == s
  {
    if s != [] {
      var p := s[..|s| - 1];
      assert s == p + [s[|s| - 1]];
      WithKeyAll(p, key, k);
    }
  }

  // ---------------------------------------------------------------------------

  function Flatten<T>(ss: seq<seq<T>>): seq<T> {
    if ss == [] then [] else ss[0] + Flatten(ss[1..])
  }

  lemma {:induction false} FlattenAppend<T>(ss: seq<seq<T>>, tt: seq<seq<T>>)
    ensures Flatten(ss + tt) == Flatten(ss) + Flatten(tt)
  {
    if ss != [] {
      assert (ss + tt)[0] == ss[0];
      assert (ss + tt)[1..] == ss[1..] + tt;
      FlattenAppend(ss[1..], tt);
      calc {
        Flatten(ss + tt);
        ss[0] + Flatten(ss[1..] + tt);
        ss[0] + (Flatten(ss[1..]) + Flatten(tt));
        (ss[0] + Flatten(ss[1..])) + Flatten(tt);
      }
    } else {
      assert ss + tt == tt;
    }
  }
  // ---------------------------------------------------------------------------

  /** A dictionary built from `s` by key, where a later element overwrites an earlier one with the same key. */
  function MapBy<T, K(==)>(s: seq<T>, key: T -> K): (m: map<K, T>)
    ensures forall i :: 0 <= i < |s| ==> key(s[i]) in m
    ensures forall k :: k in m ==> key(m[k]) == k && m[k] in s
    ensures forall i :: 0 <= i < |s| && (forall j :: i < j < |s| ==> key(s[j]) != key(s[i])) ==> m[key(s[i])] == s[i]
  {
    if s == [] then map[]
    else
      var p := s[..|s| - 1];
      assert forall i :: 0 <= i < |p| ==> p[i] == s[i];
      MapBy(p, key)[key(s[|s| - 1]) := s[|s| - 1]]
  }
  /** A sequence without repetitions holds each value at most once. */
  lemma {:induction false} DistinctCount<T>(s: seq<T>, x: T)
    requires forall i, j :: 0 <= i < j < |s| ==> s[i] != s[j]
    ensures multiset(s)[x] <= 1
  {
    if s != [] {
      var p, l := s[..|s| - 1], s[|s| - 1];
      assert s == p + [l];
      assert forall i, j :: 0 <= i < j < |p| ==> p[i] != p[j];
      DistinctCount(p, x);
      assert forall m :: 0 <= m < |p| ==> p[m] == s[m] && s[m] != l;
      assert l !in p;
    }
  }

  /** Two equal entries make a value count twice. */
  lemma RepeatCount<T>(r: seq<T>, i: nat, j: nat)
    requires i < j < |r|
    ensures r[i] == r[j] ==> multiset(r)[r[i]] >= 2
  {
    assert r == r[..j] + [r[j]] + r[j + 1..];
    assert r[..j][i] == r[i];
    assert r[i] in multiset(r[..j]);
  }

  /** A permutation of a sequence without repetitions has none either. */
  lemma PermutationDistinct<T>(r: seq<T>, s: seq<T>)
    requires multiset(r) == multiset(s)
    requires forall i, j :: 0 <= i < j < |s| ==> s[i] != s[j]
    ensures forall i, j :: 0 <= i < j < |r| ==> r[i] != r[j]
  {
    forall i, j | 0 <= i < j < |r| ensures r[i] != r[j] {
      RepeatCount(r, i, j);
      DistinctCount(s, r[i]);
    }
  }

  /** Two sequences that are permutations of each other have the same members. */
  lemma PermutationMembers<T>(r: seq<T>, s: seq<T>)
    requires multiset(r) == multiset(s)
    ensures forall x :: x in r <==> x in s
  {
    forall x ensures x in r <==> x in s {
      assert x in r <==> x in multiset(r);
      assert x in s <==> x in multiset(s);
    }
  }

  lemma AppendAssoc<T>(a: seq<T>, b: seq<T>, c: seq<T>)
    ensures (a + b) + c == a + (b + c)
  {
  }

  lemma LastSplit<T>(s: seq<T>)
    requires s != []
    ensures s == s[..|s| - 1] + [s[|s| - 1]]
  {
  }
}
