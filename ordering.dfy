/** The sorting the app relies on: Kotlin's `sortedBy`, `sortedWith(compareBy
    { .. }.thenBy { .. })` and `toSortedMap()`. All of them order by a key; the
    key here is a sequence of integers compared lexicographically (a string by
    its character codes, a pair of numbers as a two-element sequence). Kotlin's
    list sorts are stable, and so is `SortBy`. */
module Ordering {
  import opened Sequences

  /** Lexicographic order on integer sequences; a proper prefix comes first,
      as in `String.compareTo`. */
  predicate LexLe(a: seq<int>, b: seq<int>)
    decreases |a|
  {
    a == [] || (b != [] && (a[0] < b[0] || (a[0] == b[0] && LexLe(a[1..], b[1..]))))
  }

  lemma {:induction false} LexRefl(a: seq<int>)
    ensures LexLe(a, a)
    decreases |a|
  {
    if a != [] {
      LexRefl(a[1..]);
    }
  }

  lemma {:induction false} LexTotal(a: seq<int>, b: seq<int>)
    ensures LexLe(a, b) || LexLe(b, a)
    decreases |a|
  {
    if a != [] && b != [] && a[0] == b[0] {
      LexTotal(a[1..], b[1..]);
    }
  }

  lemma {:induction false} LexTrans(a: seq<int>, b: seq<int>, c: seq<int>)
    requires LexLe(a, b) && LexLe(b, c)
    ensures LexLe(a, c)
    decreases |a|
  {
    if a != [] && b != [] && c != [] && a[0] == b[0] == c[0] {
      LexTrans(a[1..], b[1..], c[1..]);
    }
  }

  lemma {:induction false} LexAntisym(a: seq<int>, b: seq<int>)
    requires LexLe(a, b) && LexLe(b, a)
    ensures a == b
    decreases |a|
  {
    if a != [] {
      LexAntisym(a[1..], b[1..]);
      assert a == [a[0]] + a[1..] && b == [b[0]] + b[1..];
    }
  }

  /** On one-element keys the order is the order of the numbers. */
  lemma LexSingle(x: int, y: int)
    ensures LexLe([x], [y]) <==> x <= y
  {
    assert [x][1..] == [] && [y][1..] == [];
  }

  /** On two-element keys the order is by the first number, then the second. */
  lemma LexPair(a: int, b: int, c: int, d: int)
    ensures LexLe([a, b], [c, d]) <==> a < c || (a == c && b <= d)
  {
    assert [a, b][1..] == [b] && [c, d][1..] == [d];
    LexSingle(b, d);
  }

  /** Every element's key is at most the keys of the elements after it. */
  predicate SortedBy<T>(s: seq<T>, key: T -> seq<int>) {
    forall i, j :: 0 <= i < j < |s| ==> LexLe(key(s[i]), key(s[j]))
  }

  /** Inserts `x` before the first element whose key is not smaller. */
  function Insert<T>(x: T, s: seq<T>, key: T -> seq<int>): seq<T>
  {
    if s == [] || LexLe(key(x), key(s[0])) then [x] + s
    else [s[0]] + Insert(x, s[1..], key)
  }

  /** Stable insertion sort: elements with equal keys keep their order. */
  function SortBy<T>(s: seq<T>, key: T -> seq<int>): seq<T>
  {
    if s == [] then [] else Insert(s[0], SortBy(s[1..], key), key)
  }

  lemma {:induction false} InsertMultiset<T>(x: T, s: seq<T>, key: T -> seq<int>)
    ensures multiset(Insert(x, s, key)) == multiset([x] + s)
    decreases |s|
  {
    if !(s == [] || LexLe(key(x), key(s[0]))) {
      InsertMultiset(x, s[1..], key);
      assert s == [s[0]] + s[1..];
    }
  }

  /** Sorting permutes. */
  lemma {:induction false} SortByPermutes<T>(s: seq<T>, key: T -> seq<int>)
    ensures multiset(SortBy(s, key)) == multiset(s)
    ensures |SortBy(s, key)| == |s|
    decreases |s|
  {
    if s != [] {
      SortByPermutes(s[1..], key);
      InsertMultiset(s[0], SortBy(s[1..], key), key);
      assert s == [s[0]] + s[1..];
    }
    assert |multiset(SortBy(s, key))| == |SortBy(s, key)|;
  }

  lemma {:induction false} InsertSorted<T>(x: T, s: seq<T>, key: T -> seq<int>)
    requires SortedBy(s, key)
    ensures SortedBy(Insert(x, s, key), key)
    decreases |s|
  {
    var r := Insert(x, s, key);
    if s == [] {
    } else if LexLe(key(x), key(s[0])) {
      forall i, j | 0 <= i < j < |r|
        ensures LexLe(key(r[i]), key(r[j]))
      {
        if i == 0 {
          if j > 1 {
            LexTrans(key(x), key(s[0]), key(s[j - 1]));
          }
        }
      }
    } else {
      InsertSorted(x, s[1..], key);
      InsertMultiset(x, s[1..], key);
      var t := Insert(x, s[1..], key);
      LexTotal(key(x), key(s[0]));
      forall j | 0 <= j < |t|
        ensures LexLe(key(s[0]), key(t[j]))
      {
        assert t[j] in multiset([x] + s[1..]);
        if t[j] != x {
          var m :| 0 <= m < |s[1..]| && s[1..][m] == t[j];
          assert s[m + 1] == t[j];
        }
      }
      assert r == [s[0]] + t;
    }
  }

  /** Sorting orders by key. */
  lemma {:induction false} SortByIsSorted<T>(s: seq<T>, key: T -> seq<int>)
    ensures SortedBy(SortBy(s, key), key)
    decreases |s|
  {
    if s != [] {
      SortByIsSorted(s[1..], key);
      InsertSorted(s[0], SortBy(s[1..], key), key);
    }
  }

  lemma {:induction false} InsertStable<T>(x: T, s: seq<T>, key: T -> seq<int>, kk: seq<int>)
    ensures OfKey(Insert(x, s, key), key, kk) == OfKey([x], key, kk) + OfKey(s, key, kk)
    decreases |s|
  {
    if s == [] || LexLe(key(x), key(s[0])) {
      OfKeyAppend([x], s, key, kk);
    } else {
      LexRefl(key(x));
      InsertStable(x, s[1..], key, kk);
      OfKeyAppend([s[0]], Insert(x, s[1..], key), key, kk);
      OfKeyAppend([s[0]], s[1..], key, kk);
      assert s == [s[0]] + s[1..];
      assert key(s[0]) == kk ==> key(x) != kk;
    }
  }

  /** Stability: among elements with equal keys, sorting keeps the input order. */
  lemma {:induction false} SortByStable<T>(s: seq<T>, key: T -> seq<int>, kk: seq<int>)
    ensures OfKey(SortBy(s, key), key, kk) == OfKey(s, key, kk)
    decreases |s|
  {
    if s != [] {
      SortByStable(s[1..], key, kk);
      InsertStable(s[0], SortBy(s[1..], key), key, kk);
      OfKeyAppend([s[0]], s[1..], key, kk);
      assert s == [s[0]] + s[1..];
    }
  }

  lemma {:induction false} InsertMap<A, B>(x: A, s: seq<A>, f: A -> B, k1: B -> seq<int>, k2: A -> seq<int>)
    requires forall a :: k1(f(a)) == k2(a)
    ensures Insert(f(x), Map(s, f), k1) == Map(Insert(x, s, k2), f)
    decreases |s|
  {
    if s != [] {
      assert Map(s, f) == [f(s[0])] + Map(s[1..], f);
      if !LexLe(k2(x), k2(s[0])) {
        InsertMap(x, s[1..], f, k1, k2);
        MapAppend([s[0]], Insert(x, s[1..], k2), f);
      } else {
        MapAppend([x], s, f);
      }
    }
  }

  /** Sorting after a key-preserving map is mapping after sorting: Kotlin's
      `map { .. }.sortedBy { .. }` and `toSortedMap().forEach { .. }` visit
      the groups in the same order. */
  lemma {:induction false} SortByMap<A, B>(s: seq<A>, f: A -> B, k1: B -> seq<int>, k2: A -> seq<int>)
    requires forall a :: k1(f(a)) == k2(a)
    ensures SortBy(Map(s, f), k1) == Map(SortBy(s, k2), f)
    decreases |s|
  {
    if s != [] {
      assert Map(s, f) == [f(s[0])] + Map(s[1..], f);
      assert Map(s, f)[1..] == Map(s[1..], f);
      SortByMap(s[1..], f, k1, k2);
      InsertMap(s[0], SortBy(s[1..], k2), f, k1, k2);
    }
  }
}
