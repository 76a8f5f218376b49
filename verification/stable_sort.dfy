/** `sortedWith(compareBy(...))`: a stable sort by an integer key. The
    library's merge sort is characterised by what it guarantees: the result
    is ordered by the key, is a permutation of the input, and keeps
    elements with equal keys in their input order. The insertion sort below
    has exactly these properties. */
module StableSort {

  predicate SortedBy<T>(s: seq<T>, key: T -> int)
  {
    forall i, j | 0 <= i < j < |s| :: key(s[i]) <= key(s[j])
  }

  /** Puts `x` before the first element whose key is not smaller. */
  function Insert<T>(x: T, t: seq<T>, key: T -> int): (r: seq<T>)
    ensures |r| == |t| + 1
    ensures multiset(r) == multiset(t) + multiset{x}
  {
    if t == [] || key(x) <= key(t[0]) then [x] + t
    else
      assert t == [t[0]] + t[1..];
      [t[0]] + Insert(x, t[1..], key)
  }

  function SortBy<T>(s: seq<T>, key: T -> int): (r: seq<T>)
    ensures |r| == |s|
    ensures multiset(r) == multiset(s)
  {
    if s == [] then []
    else
      assert s == [s[0]] + s[1..];
      Insert(s[0], SortBy(s[1..], key), key)
  }

  /** Every element of the insertion has the key of `x` or of an element
      of `t`. */
  lemma {:induction false} InsertKeys<T>(x: T, t: seq<T>, key: T -> int, lo: int)
    requires key(x) >= lo && forall i | 0 <= i < |t| :: key(t[i]) >= lo
    ensures forall i | 0 <= i < |Insert(x, t, key)| :: key(Insert(x, t, key)[i]) >= lo
    decreases |t|
  {
    if t != [] && key(x) > key(t[0]) {
      InsertKeys(x, t[1..], key, lo);
    }
  }

  lemma {:induction false} InsertSorted<T>(x: T, t: seq<T>, key: T -> int)
    requires SortedBy(t, key)
    ensures SortedBy(Insert(x, t, key), key)
    decreases |t|
  {
    if t != [] && key(x) > key(t[0]) {
      var rest := Insert(x, t[1..], key);
      InsertSorted(x, t[1..], key);
      InsertKeys(x, t[1..], key, key(t[0]));
      assert Insert(x, t, key) == [t[0]] + rest;
    }
  }

  /** The result is ordered by the key and is a permutation of the input. */
  lemma {:induction false} SortBySorted<T>(s: seq<T>, key: T -> int)
    ensures SortedBy(SortBy(s, key), key)
    ensures multiset(SortBy(s, key)) == multiset(s)
    decreases |s|
  {
    if s != [] {
      SortBySorted(s[1..], key);
      InsertSorted(s[0], SortBy(s[1..], key), key);
    }
  }

  /** The elements whose key is `k`, in order. */
  function WithKey<T>(s: seq<T>, key: T -> int, k: int): (r: seq<T>)
    ensures |r| <= |s|
    ensures forall i | 0 <= i < |r| :: key(r[i]) == k
  {
    if s == [] then [] else (if key(s[0]) == k then [s[0]] else []) + WithKey(s[1..], key, k)
  }

  lemma {:induction false} InsertWithKey<T>(x: T, t: seq<T>, key: T -> int, k: int)
    ensures WithKey(Insert(x, t, key), key, k) == (if key(x) == k then [x] else []) + WithKey(t, key, k)
    decreases |t|
  {
    var r := Insert(x, t, key);
    if t == [] || key(x) <= key(t[0]) {
      assert r[0] == x && r[1..] == t;
    } else {
      InsertWithKey(x, t[1..], key, k);
      assert r[0] == t[0] && r[1..] == Insert(x, t[1..], key);
      if key(x) == k {
        // t[0] has a smaller key than x, so it is not one of the `k`s
        assert WithKey(r, key, k) == WithKey(r[1..], key, k);
      }
    }
  }

  /** Stability: among elements with equal keys the input order survives. */
  lemma {:induction false} SortByStable<T>(s: seq<T>, key: T -> int, k: int)
    ensures WithKey(SortBy(s, key), key, k) == WithKey(s, key, k)
    decreases |s|
  {
    if s != [] {
      SortByStable(s[1..], key, k);
      InsertWithKey(s[0], SortBy(s[1..], key), key, k);
    }
  }
}
