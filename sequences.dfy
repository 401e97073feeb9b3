/** Sequence helpers behind the grouping code of the app: Kotlin's `map`,
    `filter`, the per-key buckets of `groupBy` / `getOrPut`, the key order of
    an insertion-ordered map, and the fact that the buckets over all keys
    hold every element exactly once. */
module Sequences {

  datatype Option<T> = None | Some(value: T)

  /** No element occurs twice. */
  predicate Distinct<T(==)>(s: seq<T>) {
    forall i, j :: 0 <= i < j < |s| ==> s[i] != s[j]
  }

  /** Kotlin's `map`. */
  function Map<A, B>(s: seq<A>, f: A -> B): (r: seq<B>)
    ensures |r| == |s|
    ensures forall i :: 0 <= i < |s| ==> r[i] == f(s[i])
  {
    seq(|s|, i requires 0 <= i < |s| => f(s[i]))
  }

  lemma MapAppend<A, B>(s: seq<A>, t: seq<A>, f: A -> B)
    ensures Map(s + t, f) == Map(s, f) + Map(t, f)
  {
    assert forall i :: 0 <= i < |s + t| ==> Map(s + t, f)[i] == (Map(s, f) + Map(t, f))[i];
  }

  lemma MapCons<A, B>(s: seq<A>, f: A -> B)
    requires s != []
    ensures Map(s, f) == [f(s[0])] + Map(s[1..], f)
  {
  }

  /** Kotlin's `filter`: the elements satisfying `p`, in their order. */
  function Filter<T>(s: seq<T>, p: T -> bool): (r: seq<T>)
    ensures |r| <= |s|
    ensures forall i :: 0 <= i < |r| ==> r[i] in s && p(r[i])
  {
    if s == [] then []
    else
      assert forall x :: x in s[..|s| - 1] ==> x in s;
      Filter(s[..|s| - 1], p) + (if p(s[|s| - 1]) then [s[|s| - 1]] else [])
  }

  lemma {:induction false} FilterAppend<T>(s: seq<T>, t: seq<T>, p: T -> bool)
    ensures Filter(s + t, p) == Filter(s, p) + Filter(t, p)
    decreases |t|
  {
    if t == [] {
      assert s + t == s;
    } else {
      var n := |t| - 1;
      assert (s + t)[..|s + t| - 1] == s + t[..n];
      FilterAppend(s, t[..n], p);
    }
  }

  /** The number of copies of `x` that survive the filter. */
  lemma {:induction false} FilterMultiset<T>(s: seq<T>, p: T -> bool, x: T)
    ensures multiset(Filter(s, p))[x] == if p(x) then multiset(s)[x] else 0
    decreases |s|
  {
    if s != [] {
      var n := |s| - 1;
      assert s == s[..n] + [s[n]];
      FilterMultiset(s[..n], p, x);
    }
  }

  /** The elements of `s` whose key is `k`, in their order: the bucket that
      `groupBy` or `getOrPut` builds for `k`. */
  function OfKey<T, K(==)>(s: seq<T>, key: T -> K, k: K): (r: seq<T>)
    ensures |r| <= |s|
    ensures forall i :: 0 <= i < |r| ==> r[i] in s && key(r[i]) == k
  {
    if s == [] then []
    else
      assert forall x :: x in s[..|s| - 1] ==> x in s;
      OfKey(s[..|s| - 1], key, k) + (if key(s[|s| - 1]) == k then [s[|s| - 1]] else [])
  }

  lemma {:induction false} OfKeyAppend<T, K>(s: seq<T>, t: seq<T>, key: T -> K, k: K)
    ensures OfKey(s + t, key, k) == OfKey(s, key, k) + OfKey(t, key, k)
    decreases |t|
  {
    if t == [] {
      assert s + t == s;
    } else {
      var n := |t| - 1;
      assert (s + t)[..|s + t| - 1] == s + t[..n];
      OfKeyAppend(s, t[..n], key, k);
    }
  }

  /** A bucket keeps every copy of each element with its key and no other. */
  lemma {:induction false} OfKeyMultiset<T, K>(s: seq<T>, key: T -> K, k: K, x: T)
    ensures multiset(OfKey(s, key, k))[x] == if key(x) == k then multiset(s)[x] else 0
    decreases |s|
  {
    if s != [] {
      var n := |s| - 1;
      assert s == s[..n] + [s[n]];
      OfKeyMultiset(s[..n], key, k, x);
    }
  }

  lemma OfKeySnoc<T, K>(s: seq<T>, x: T, key: T -> K, k: K)
    ensures OfKey(s + [x], key, k) == OfKey(s, key, k) + (if key(x) == k then [x] else [])
  {
    assert (s + [x])[..|s|] == s;
  }

  /** A bucket is empty exactly when no element has its key. */
  lemma {:induction false} OfKeyEmpty<T, K>(s: seq<T>, key: T -> K, k: K)
    ensures OfKey(s, key, k) == [] <==> k !in Map(s, key)
    decreases |s|
  {
    if s != [] {
      var n := |s| - 1;
      OfKeyEmpty(s[..n], key, k);
      assert Map(s, key) == Map(s[..n], key) + [key(s[n])];
    }
  }

  /** Bucketing commutes with a key-preserving `map`. */
  lemma {:induction false} OfKeyMap<A, B, K>(s: seq<A>, f: A -> B, k1: A -> K, k2: B -> K, k: K)
    requires forall a :: k2(f(a)) == k1(a)
    ensures OfKey(Map(s, f), k2, k) == Map(OfKey(s, k1, k), f)
    decreases |s|
  {
    if s != [] {
      var n := |s| - 1;
      OfKeyMap(s[..n], f, k1, k2, k);
      assert Map(s, f)[..n] == Map(s[..n], f);
      MapAppend(OfKey(s[..n], k1, k), if k1(s[n]) == k then [s[n]] else [], f);
    }
  }

  /** The distinct elements of `s` in the order of their first occurrence:
      the key order of Kotlin's `groupBy` and of a `linkedMapOf` filled by
      `getOrPut`. */
  function Dedup<T(==)>(s: seq<T>): (r: seq<T>)
    ensures forall i :: 0 <= i < |r| ==> r[i] in s
    ensures forall i :: 0 <= i < |s| ==> s[i] in r
    ensures Distinct(r)
  {
    if s == [] then []
    else
      var d := Dedup(s[..|s| - 1]);
      assert s == s[..|s| - 1] + [s[|s| - 1]];
      if s[|s| - 1] in d then d else d + [s[|s| - 1]]
  }

  lemma DedupSnoc<T>(s: seq<T>, x: T)
    ensures Dedup(s + [x]) == if x in Dedup(s) then Dedup(s) else Dedup(s) + [x]
  {
    assert (s + [x])[..|s + [x]| - 1] == s;
  }

  /** A sequence without repetitions is as long as the set of its elements. */
  lemma {:induction false} DistinctCardinality<T>(s: seq<T>)
    requires Distinct(s)
    ensures |set x | x in s| == |s|
    decreases |s|
  {
    if s != [] {
      var n := |s| - 1;
      DistinctCardinality(s[..n]);
      assert (set x | x in s) == (set x | x in s[..n]) + {s[n]};
      assert s[n] !in (set x | x in s[..n]);
    }
  }

  /** Two sequences with the same elements counted with multiplicity: if one
      has no repetitions, neither has the other. */
  lemma DistinctPermutation<T>(s: seq<T>, t: seq<T>)
    requires multiset(s) == multiset(t)
    requires Distinct(s)
    ensures Distinct(t)
  {
    forall i, j | 0 <= i < j < |t|
      ensures t[i] != t[j]
    {
      if t[i] == t[j] {
        assert t == t[..i] + [t[i]] + t[i + 1..j] + [t[j]] + t[j + 1..];
        assert multiset(t)[t[i]] >= 2;
        DistinctCount(s, t[i]);
      }
    }
  }

  lemma {:induction false} DistinctCount<T>(s: seq<T>, x: T)
    requires Distinct(s)
    ensures multiset(s)[x] <= 1
    decreases |s|
  {
    if s != [] {
      var n := |s| - 1;
      assert s == s[..n] + [s[n]];
      DistinctCount(s[..n], x);
      if s[n] == x {
        assert x !in s[..n];
      }
    }
  }

  /** The buckets of `s` for the keys `ks`, one after the other. */
  function ConcatOfKeys<T, K(==)>(s: seq<T>, key: T -> K, ks: seq<K>): seq<T>
  {
    if ks == [] then []
    else ConcatOfKeys(s, key, ks[..|ks| - 1]) + OfKey(s, key, ks[|ks| - 1])
  }

  /** Over distinct keys, the buckets hold exactly the elements whose key is
      among them, each as often as in `s`. */
  lemma {:induction false} ConcatOfKeysMultiset<T, K>(s: seq<T>, key: T -> K, ks: seq<K>, x: T)
    requires Distinct(ks)
    ensures multiset(ConcatOfKeys(s, key, ks))[x] == if key(x) in ks then multiset(s)[x] else 0
    decreases |ks|
  {
    if ks != [] {
      var n := |ks| - 1;
      assert ks == ks[..n] + [ks[n]];
      ConcatOfKeysMultiset(s, key, ks[..n], x);
      OfKeyMultiset(s, key, ks[n], x);
      if key(x) == ks[n] {
        assert key(x) !in ks[..n];
      }
    }
  }

  /** Partition: when every element's key is among distinct `ks`, the buckets
      together are a permutation of `s`. */
  lemma ConcatOfKeysPermutes<T, K>(s: seq<T>, key: T -> K, ks: seq<K>)
    requires Distinct(ks)
    requires forall i :: 0 <= i < |s| ==> key(s[i]) in ks
    ensures multiset(ConcatOfKeys(s, key, ks)) == multiset(s)
  {
    var c := ConcatOfKeys(s, key, ks);
    forall x
      ensures multiset(c)[x] == multiset(s)[x]
    {
      ConcatOfKeysMultiset(s, key, ks, x);
    }
    MultisetExt(multiset(c), multiset(s));
  }

  lemma MultisetExt<T>(a: multiset<T>, b: multiset<T>)
    requires forall x :: a[x] == b[x]
    ensures a == b
  {
  }

  /** Mapping two permutations of each other gives permutations of each other. */
  lemma {:induction false} MapPermutes<A, B>(s: seq<A>, t: seq<A>, f: A -> B)
    requires multiset(s) == multiset(t)
    ensures multiset(Map(s, f)) == multiset(Map(t, f))
    decreases |s|
  {
    if s == [] {
      assert |t| == |multiset(t)| == 0;
    } else {
      var n := |s| - 1;
      var x := s[n];
      assert s == s[..n] + [x];
      assert x in multiset(t);
      var j :| 0 <= j < |t| && t[j] == x;
      var t' := t[..j] + t[j + 1..];
      assert t == t[..j] + [x] + t[j + 1..];
      assert multiset(t') == multiset(t) - multiset{x};
      MapPermutes(s[..n], t', f);
      MapAppend(s[..n], [x], f);
      MapAppend(t[..j], [x], f);
      MapAppend(t[..j] + [x], t[j + 1..], f);
      MapAppend(t[..j], t[j + 1..], f);
    }
  }

  /** Kotlin's `mapNotNull`: the non-null results of `f`, in order. */
  function MapNotNull<A, B>(s: seq<A>, f: A -> Option<B>): (r: seq<B>)
    ensures |r| <= |s|
  {
    if s == [] then []
    else
      var n := |s| - 1;
      MapNotNull(s[..n], f) + (if f(s[n]).Some? then [f(s[n]).value] else [])
  }

  lemma {:induction false} MapNotNullAppend<A, B>(s: seq<A>, t: seq<A>, f: A -> Option<B>)
    ensures MapNotNull(s + t, f) == MapNotNull(s, f) + MapNotNull(t, f)
    decreases |t|
  {
    if t == [] {
      assert s + t == s;
    } else {
      var n := |t| - 1;
      assert (s + t)[..|s + t| - 1] == s + t[..n];
      MapNotNullAppend(s, t[..n], f);
    }
  }

  /** `mapNotNull` undoes a `map` whose results it recognises. */
  lemma {:induction false} MapNotNullOfMap<A, B>(s: seq<A>, g: A -> B, f: B -> Option<A>)
    requires forall a :: f(g(a)) == Some(a)
    ensures MapNotNull(Map(s, g), f) == s
    decreases |s|
  {
    if s != [] {
      var n := |s| - 1;
      assert Map(s, g)[..n] == Map(s[..n], g);
      MapNotNullOfMap(s[..n], g, f);
    }
  }

  /** `mapNotNull` drops everything a `map` produced that it rejects. */
  lemma {:induction false} MapNotNullOfMapNone<A, B, C>(s: seq<A>, g: A -> B, f: B -> Option<C>)
    requires forall a :: f(g(a)) == None
    ensures MapNotNull(Map(s, g), f) == []
    decreases |s|
  {
    if s != [] {
      var n := |s| - 1;
      assert Map(s, g)[..n] == Map(s[..n], g);
      MapNotNullOfMapNone(s[..n], g, f);
    }
  }

  /** Filtering two permutations of each other gives permutations of each other. */
  lemma FilterPermutes<T>(s: seq<T>, t: seq<T>, p: T -> bool)
    requires multiset(s) == multiset(t)
    ensures multiset(Filter(s, p)) == multiset(Filter(t, p))
  {
    forall x
      ensures multiset(Filter(s, p))[x] == multiset(Filter(t, p))[x]
    {
      FilterMultiset(s, p, x);
      FilterMultiset(t, p, x);
    }
    MultisetExt(multiset(Filter(s, p)), multiset(Filter(t, p)));
  }
}
