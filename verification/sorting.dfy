/** Python's `sorted(xs, key=...)` for the two key shapes the artifact uses: a
    timestamp, or a timestamp with a text tie-breaker. The sort is stable, so
    its result is fixed by the order of the keys and, among equal keys, by
    the order of the input (services/forensic-engine/main.py:342, 361). */
module Sorting {
  import opened Text

  /** A sort key compared like the Python tuple `(primary, secondary)`; a key
      that is only a timestamp uses the same (empty) secondary for all. */
  datatype SortKey = SortKey(primary: real, secondary: string)

  predicate KeyLt(x: SortKey, y: SortKey) {
    x.primary < y.primary || (x.primary == y.primary && StrLt(x.secondary, y.secondary))
  }

  predicate KeyLe(x: SortKey, y: SortKey) {
    x == y || KeyLt(x, y)
  }

  lemma KeyLeTotal(x: SortKey, y: SortKey)
    ensures KeyLe(x, y) || KeyLe(y, x)
    ensures KeyLe(x, y) <==> !KeyLt(y, x)
  {
    StrTrichotomy(x.secondary, y.secondary);
  }

  lemma KeyLeAntisymmetric(x: SortKey, y: SortKey)
    requires KeyLe(x, y) && KeyLe(y, x)
    ensures x == y
  {
    StrTrichotomy(x.secondary, y.secondary);
  }

  lemma KeyLeTransitive(x: SortKey, y: SortKey, z: SortKey)
    requires KeyLe(x, y) && KeyLe(y, z)
    ensures KeyLe(x, z)
  {
    if x.primary == y.primary == z.primary && x != y && y != z {
      StrLtTransitive(x.secondary, y.secondary, z.secondary);
    }
  }

  /** Non-decreasing keys. */
  predicate Sorted<T>(s: seq<T>, key: T -> SortKey) {
    forall i, j :: 0 <= i < j < |s| ==> KeyLe(key(s[i]), key(s[j]))
  }

  /** The elements of `s` whose key is `k`, in their order in `s`. */
  function WithKey<T>(s: seq<T>, key: T -> SortKey, k: SortKey): seq<T> {
    if |s| == 0 then [] else (if key(s[0]) == k then [s[0]] else []) + WithKey(s[1..], key, k)
  }

  lemma {:induction false} WithKeyElements<T>(s: seq<T>, key: T -> SortKey, k: SortKey)
    ensures forall x :: x in WithKey(s, key, k) <==> x in s && key(x) == k
  {
    if |s| > 0 {
      WithKeyElements(s[1..], key, k);
      assert s == [s[0]] + s[1..];
    }
  }

  /** `x` placed before the first element whose key is not smaller than its
      own. */
  function Insert<T>(x: T, s: seq<T>, key: T -> SortKey): (r: seq<T>)
    ensures multiset(r) == multiset(s) + multiset{x}
  {
    if |s| == 0 then [x]
    else if KeyLe(key(x), key(s[0])) then [x] + s
    else
      assert s == [s[0]] + s[1..];
      [s[0]] + Insert(x, s[1..], key)
  }

  /** Inserting an element no smaller than `lo` into elements no smaller
      than `lo` gives elements no smaller than `lo`. */
  lemma {:induction false} InsertLowerBound<T>(x: T, s: seq<T>, key: T -> SortKey, lo: SortKey)
    requires KeyLe(lo, key(x))
    requires forall i :: 0 <= i < |s| ==> KeyLe(lo, key(s[i]))
    ensures forall i :: 0 <= i < |Insert(x, s, key)| ==> KeyLe(lo, key(Insert(x, s, key)[i]))
  {
    if |s| > 0 && !KeyLe(key(x), key(s[0])) {
      InsertLowerBound(x, s[1..], key, lo);
      assert Insert(x, s, key) == [s[0]] + Insert(x, s[1..], key);
    }
  }

  lemma {:induction false} InsertSorted<T>(x: T, s: seq<T>, key: T -> SortKey)
    requires Sorted(s, key)
    ensures Sorted(Insert(x, s, key), key)
  {
    var r := Insert(x, s, key);
    if |s| == 0 {
    } else if KeyLe(key(x), key(s[0])) {
      forall i, j | 0 <= i < j < |r| ensures KeyLe(key(r[i]), key(r[j])) {
        if i == 0 && j > 1 {
          KeyLeTransitive(key(x), key(s[0]), key(s[j - 1]));
        }
      }
    } else {
      var rest := Insert(x, s[1..], key);
      InsertSorted(x, s[1..], key);
      KeyLeTotal(key(x), key(s[0]));
      InsertLowerBound(x, s[1..], key, key(s[0]));
      assert r == [s[0]] + rest;
    }
  }

  lemma {:induction false} WithKeyAppend<T>(a: seq<T>, b: seq<T>, key: T -> SortKey, k: SortKey)
    ensures WithKey(a + b, key, k) == WithKey(a, key, k) + WithKey(b, key, k)
  {
    if |a| == 0 {
      assert a + b == b;
    } else {
      WithKeyAppend(a[1..], b, key, k);
      assert (a + b)[1..] == a[1..] + b;
    }
  }

  /** Inserting `x` puts it in front of every element with the same key. */
  lemma {:induction false} InsertStable<T>(x: T, s: seq<T>, key: T -> SortKey, k: SortKey)
    ensures key(x) == k ==> WithKey(Insert(x, s, key), key, k) == [x] + WithKey(s, key, k)
    ensures key(x) != k ==> WithKey(Insert(x, s, key), key, k) == WithKey(s, key, k)
  {
    if |s| == 0 {
      assert Insert(x, s, key) == [x];
    } else if KeyLe(key(x), key(s[0])) {
      assert Insert(x, s, key) == [x] + s;
      WithKeyAppend([x], s, key, k);
    } else {
      var ins := Insert(x, s[1..], key);
      InsertStable(x, s[1..], key, k);
      assert Insert(x, s, key) == [s[0]] + ins;
      WithKeyAppend([s[0]], ins, key, k);
      if key(x) == k {
        assert key(s[0]) != k;
        assert WithKey(s, key, k) == WithKey(s[1..], key, k);
        assert WithKey([s[0]], key, k) == [];
      } else if key(s[0]) == k {
        assert WithKey(s, key, k) == [s[0]] + WithKey(s[1..], key, k);
        assert WithKey([s[0]], key, k) == [s[0]];
      } else {
        assert WithKey(s, key, k) == WithKey(s[1..], key, k);
        assert WithKey([s[0]], key, k) == [];
      }
    }
  }

  /** The stable sort: insertion of each element, last one first. */
  function SortBy<T>(s: seq<T>, key: T -> SortKey): (r: seq<T>)
    ensures Sorted(r, key)
    ensures multiset(r) == multiset(s) && |r| == |s|
    ensures forall k :: WithKey(r, key, k) == WithKey(s, key, k)
  {
    if |s| == 0 then []
    else
      var rest := SortBy(s[1..], key);
      InsertSorted(s[0], rest, key);
      assert s == [s[0]] + s[1..];
      assert forall k :: WithKey(Insert(s[0], rest, key), key, k) == WithKey(s, key, k) by {
        forall k ensures WithKey(Insert(s[0], rest, key), key, k) == WithKey(s, key, k) {
          InsertStable(s[0], rest, key, k);
          assert WithKey(s, key, k) == (if key(s[0]) == k then [s[0]] else []) + WithKey(s[1..], key, k);
        }
      }
      Insert(s[0], rest, key)
  }

  /** The sort neither adds nor drops elements. */
  lemma SortByElements<T>(s: seq<T>, key: T -> SortKey)
    ensures forall x :: x in SortBy(s, key) <==> x in s
  {
    var r := SortBy(s, key);
    forall x ensures x in r <==> x in s {
      assert x in r <==> x in multiset(r);
    }
  }

  /** Sortedness and stability determine the result: any two sorted sequences
      holding, for every key, the same elements in the same order are equal. */
  lemma {:induction false} SortedStableUnique<T>(r1: seq<T>, r2: seq<T>, key: T -> SortKey)
    requires Sorted(r1, key) && Sorted(r2, key)
    requires forall k :: WithKey(r1, key, k) == WithKey(r2, key, k)
    ensures r1 == r2
  {
    if |r1| > 0 {
      WithKeyElements(r1, key, key(r1[0]));
      WithKeyElements(r2, key, key(r1[0]));
      assert r1[0] in WithKey(r1, key, key(r1[0]));
    }
    if |r2| > 0 {
      WithKeyElements(r1, key, key(r2[0]));
      WithKeyElements(r2, key, key(r2[0]));
      assert r2[0] in WithKey(r2, key, key(r2[0]));
    }
    if |r1| > 0 {
      var k1, k2 := key(r1[0]), key(r2[0]);
      WithKeyElements(r1, key, k2);
      WithKeyElements(r2, key, k1);
      assert r1[0] in WithKey(r1, key, k1);
      assert r2[0] in WithKey(r2, key, k2);
      var j :| 0 <= j < |r2| && r2[j] == r1[0];
      var i :| 0 <= i < |r1| && r1[i] == r2[0];
      assert KeyLe(k2, k1) && KeyLe(k1, k2);
      KeyLeAntisymmetric(k1, k2);
      assert r1[0] == r2[0] by {
        assert WithKey(r1, key, k1)[0] == r1[0];
        assert WithKey(r2, key, k1)[0] == r2[0];
      }
      forall k ensures WithKey(r1[1..], key, k) == WithKey(r2[1..], key, k) {
        assert WithKey(r1, key, k) == WithKey(r2, key, k);
        if k == k1 {
          assert WithKey(r1, key, k) == [r1[0]] + WithKey(r1[1..], key, k);
          assert WithKey(r2, key, k) == [r2[0]] + WithKey(r2[1..], key, k);
          assert WithKey(r1[1..], key, k) == WithKey(r1, key, k)[1..];
          assert WithKey(r2[1..], key, k) == WithKey(r2, key, k)[1..];
        } else {
          assert WithKey(r1, key, k) == WithKey(r1[1..], key, k);
          assert WithKey(r2, key, k) == WithKey(r2[1..], key, k);
        }
      }
      SortedStableUnique(r1[1..], r2[1..], key);
      assert r1 == [r1[0]] + r1[1..] && r2 == [r2[0]] + r2[1..];
    }
  }

  /** A stable sort of `s` (one whose result is sorted and keeps, for every
      key, the input order) returns exactly `SortBy(s, key)`. */
  lemma SortByIsTheStableSort<T>(s: seq<T>, r: seq<T>, key: T -> SortKey)
    requires Sorted(r, key)
    requires forall k :: WithKey(r, key, k) == WithKey(s, key, k)
    ensures r == SortBy(s, key)
  {
    SortedStableUnique(r, SortBy(s, key), key);
  }
}
