/**
 * `Array.prototype.sort` with a comparator that compares one integer key per
 * element. The language requires this sort to be stable, so its result is the
 * unique sequence that is ordered by the key and keeps the input order among
 * elements with equal keys; `SortBy` is an insertion sort with that result.
 */
module Sorting {

  /** Keys are non-decreasing. */
  predicate SortedBy<T>(s: seq<T>, key: T -> int) {
    forall i, j :: 0 <= i < j < |s| ==> key(s[i]) <= key(s[j])
  }

  /** The elements with key `k`, in order. */
  function WithKey<T>(s: seq<T>, key: T -> int, k: int): seq<T> {
    if s == [] then [] else (if key(s[0]) == k then [s[0]] else []) + WithKey(s[1..], key, k)
  }

  /** Inserts `x` before the first element whose key is not smaller. */
  function Insert<T>(x: T, s: seq<T>, key: T -> int): (r: seq<T>)
    requires SortedBy(s, key)
    ensures |r| == |s| + 1
    ensures r[0] == x || (s != [] && r[0] == s[0])
    ensures SortedBy(r, key)
  {
    if s == [] || key(x) <= key(s[0]) then [x] + s
    else [s[0]] + Insert(x, s[1..], key)
  }

  /** Stable sort by ascending key. */
  function SortBy<T>(s: seq<T>, key: T -> int): (r: seq<T>)
    ensures |r| == |s|
    ensures SortedBy(r, key)
  {
    if s == [] then [] else Insert(s[0], SortBy(s[1..], key), key)
  }

  lemma WithKeyCons<T>(y: T, t: seq<T>, key: T -> int, k: int)
    ensures WithKey([y] + t, key, k) == (if key(y) == k then [y] else []) + WithKey(t, key, k)
  {
    assert ([y] + t)[0] == y && ([y] + t)[1..] == t;
  }

  lemma {:induction false} InsertWithKey<T>(x: T, s: seq<T>, key: T -> int, k: int)
    requires SortedBy(s, key)
    ensures WithKey(Insert(x, s, key), key, k) == (if key(x) == k then [x] else []) + WithKey(s, key, k)
  {
    if s == [] || key(x) <= key(s[0]) {
      WithKeyCons(x, s, key, k);
    } else {
      InsertWithKey(x, s[1..], key, k);
      InsertAfterHead(x, s, key, k);
    }
  }

  lemma InsertAfterHead<T>(x: T, s: seq<T>, key: T -> int, k: int)
    requires SortedBy(s, key) && s != [] && key(s[0]) < key(x)
    requires WithKey(Insert(x, s[1..], key), key, k) == (if key(x) == k then [x] else []) + WithKey(s[1..], key, k)
    ensures WithKey(Insert(x, s, key), key, k) == (if key(x) == k then [x] else []) + WithKey(s, key, k)
  {
    var rest := Insert(x, s[1..], key);
    assert Insert(x, s, key) == [s[0]] + rest;
    WithKeyCons(s[0], rest, key, k);
    WithKeyCons(s[0], s[1..], key, k);
    assert s == [s[0]] + s[1..];
    var head: seq<T> := if key(s[0]) == k then [s[0]] else [];
    var mid: seq<T> := if key(x) == k then [x] else [];
    assert head == [] || mid == [];
    SwapEmpty(head, mid, WithKey(s[1..], key, k));
  }

  /** One of two parts is empty, so they can be put in either order; kept apart to keep the caller's proof small. */
  lemma SwapEmpty<T>(a: seq<T>, b: seq<T>, c: seq<T>)
    requires a == [] || b == []
    ensures a + (b + c) == b + (a + c)
  {
  }

  /**
   * Stability: for every key, the elements with that key appear in the sorted
   * result exactly as they appear in the input. (With sortedness this also
   * makes the result a permutation of the input.)
   */
  lemma {:induction false} SortIsStable<T>(s: seq<T>, key: T -> int, k: int)
    ensures WithKey(SortBy(s, key), key, k) == WithKey(s, key, k)
  {
    if s != [] {
      SortIsStable(s[1..], key, k);
      InsertWithKey(s[0], SortBy(s[1..], key), key, k);
    }
  }

  lemma {:induction false} InsertPermutes<T>(x: T, s: seq<T>, key: T -> int)
    requires SortedBy(s, key)
    ensures multiset(Insert(x, s, key)) == multiset(s) + multiset{x}
  {
    if s == [] || key(x) <= key(s[0]) {
      assert Insert(x, s, key) == [x] + s;
    } else {
      var rest := Insert(x, s[1..], key);
      assert Insert(x, s, key) == [s[0]] + rest;
      InsertPermutes(x, s[1..], key);
      MultisetCons(s);
    }
  }

  /** The sorted result is a permutation of the input. */
  lemma {:induction false} SortPermutes<T>(s: seq<T>, key: T -> int)
    ensures multiset(SortBy(s, key)) == multiset(s)
  {
    if s != [] {
      var r := SortBy(s[1..], key);
      assert SortBy(s, key) == Insert(s[0], r, key);
      SortPermutes(s[1..], key);
      InsertPermutes(s[0], r, key);
      MultisetCons(s);
    }
  }

  lemma MultisetCons<T>(s: seq<T>)
    requires s != []
    ensures multiset(s) == multiset(s[1..]) + multiset{s[0]}
  {
    assert s == [s[0]] + s[1..];
  }

  lemma {:induction false} WithKeyEmpty<T>(s: seq<T>, key: T -> int, k: int)
    requires forall i :: 0 <= i < |s| ==> key(s[i]) != k
    ensures WithKey(s, key, k) == []
  {
    if s != [] {
      WithKeyEmpty(s[1..], key, k);
    }
  }

  /**
   * Uniqueness: a sequence ordered by the key that agrees with `s` on every
   * key class is `SortBy(s, key)`. So any stable sort with this comparator,
   * `Array.prototype.sort` included, returns what `SortBy` returns.
   */
  lemma {:induction false} StableSortIsUnique<T>(a: seq<T>, b: seq<T>, key: T -> int)
    requires SortedBy(a, key) && SortedBy(b, key)
    requires forall k :: WithKey(a, key, k) == WithKey(b, key, k)
    ensures a == b
    decreases |a|
  {
    if a != [] {
      WithKeyCons(a[0], a[1..], key, key(a[0]));
      assert a == [a[0]] + a[1..];
    }
    if b != [] {
      WithKeyCons(b[0], b[1..], key, key(b[0]));
      assert b == [b[0]] + b[1..];
    }
    if a == [] || b == [] {
    } else {
      var ka, kb := key(a[0]), key(b[0]);
      if ka < kb {
        WithKeyEmpty(b, key, ka);
      } else if kb < ka {
        WithKeyEmpty(a, key, kb);
      } else {
        assert WithKey(a, key, ka)[0] == a[0];
        assert WithKey(b, key, ka)[0] == b[0];
        assert a[0] == b[0];
        forall k ensures WithKey(a[1..], key, k) == WithKey(b[1..], key, k) {
          var head := if ka == k then [a[0]] else [];
          assert WithKey(a, key, k) == head + WithKey(a[1..], key, k);
          assert WithKey(b, key, k) == head + WithKey(b[1..], key, k);
          assert (head + WithKey(a[1..], key, k))[|head|..] == WithKey(a[1..], key, k);
          assert (head + WithKey(b[1..], key, k))[|head|..] == WithKey(b[1..], key, k);
        }
        StableSortIsUnique(a[1..], b[1..], key);
        assert a == [a[0]] + a[1..] && b == [b[0]] + b[1..];
      }
    }
  }
}
