/**
 * Sequence facts shared by the scripts: an array built from a `Set`, which keeps
 * each value once in the order it was first inserted, and first-occurrence
 * search (`Array.prototype.find`, `indexOf`).
 */
module Seqs {

  /** Extending a prefix by one element (kept apart so that loops need not prove it in a crowded context). */
  lemma PrefixSnoc<T>(s: seq<T>, i: nat)
    requires i < |s|
    ensures s[..i + 1] == s[..i] + [s[i]]
  {
  }

  /** No value occurs twice. */
  predicate Distinct<T(==)>(xs: seq<T>) {
    forall i, j :: 0 <= i < j < |xs| ==> xs[i] != xs[j]
  }

  /** The index of the first occurrence of `x` in `xs`. */
  function FirstIndex<T(==)>(xs: seq<T>, x: T): (k: nat)
    requires x in xs
    ensures k < |xs| && xs[k] == x
    ensures forall j :: 0 <= j < k ==> xs[j] != x
  {
    if xs[0] == x then 0 else 1 + FirstIndex(xs[1..], x)
  }

  /** The values of a `Set` built from `xs`: a value is appended the first time it is added. */
  function FirstSeen<T(==)>(xs: seq<T>): (r: seq<T>)
    ensures Distinct(r)
    ensures forall i :: 0 <= i < |r| ==> r[i] in xs
    ensures forall i :: 0 <= i < |xs| ==> xs[i] in r
    ensures |r| <= |xs|
  {
    if xs == [] then []
    else
      var r := FirstSeen(xs[..|xs| - 1]);
      if xs[|xs| - 1] in r then r else r + [xs[|xs| - 1]]
  }

  lemma {:induction false} FirstIndexOfPrefix<T>(xs: seq<T>, n: nat, x: T)
    requires n <= |xs| && x in xs[..n]
    ensures FirstIndex(xs[..n], x) == FirstIndex(xs, x)
  {
    var k := FirstIndex(xs[..n], x);
    var m := FirstIndex(xs, x);
    assert xs[k] == x;
    assert m <= k;
    assert xs[..n][m] == x;
  }

  /** The values of `FirstSeen(xs)` are listed in the order of their first occurrence in `xs`. */
  lemma {:induction false} FirstSeenOrder<T>(xs: seq<T>)
    ensures forall i, j :: 0 <= i < j < |FirstSeen(xs)| ==>
      FirstIndex(xs, FirstSeen(xs)[i]) < FirstIndex(xs, FirstSeen(xs)[j])
  {
    if xs != [] {
      var n := |xs| - 1;
      var p := xs[..n];
      var r := FirstSeen(p);
      FirstSeenOrder(p);
      forall y | y in r ensures FirstIndex(xs, y) == FirstIndex(p, y) && FirstIndex(p, y) < n {
        FirstIndexOfPrefix(xs, n, y);
      }
      if xs[n] !in r {
        assert xs[n] !in p;
        assert FirstIndex(xs, xs[n]) == n;
      }
    }
  }

  /** Appending a value extends `FirstSeen` exactly when the value is new. */
  lemma FirstSeenSnoc<T>(xs: seq<T>, x: T)
    ensures FirstSeen(xs + [x]) == if x in xs then FirstSeen(xs) else FirstSeen(xs) + [x]
  {
    assert (xs + [x])[..|xs|] == xs;
  }

  /** Keeping the first occurrence: `FirstSeen` of a concatenation. */
  lemma {:induction false} FirstSeenAppend<T>(xs: seq<T>, ys: seq<T>)
    ensures FirstSeen(xs + ys) == FirstSeen(FirstSeen(xs) + ys)
    decreases |ys|
  {
    if ys == [] {
      assert xs + ys == xs;
      assert FirstSeen(xs) + ys == FirstSeen(xs);
      FirstSeenOfDistinct(FirstSeen(xs));
    } else {
      var y := ys[|ys| - 1];
      var init := ys[..|ys| - 1];
      assert xs + ys == (xs + init) + [y];
      assert FirstSeen(xs) + ys == (FirstSeen(xs) + init) + [y];
      FirstSeenAppend(xs, init);
      FirstSeenSnoc(xs + init, y);
      FirstSeenSnoc(FirstSeen(xs) + init, y);
    }
  }

  /** A duplicate-free sequence is its own `FirstSeen`. */
  lemma {:induction false} FirstSeenOfDistinct<T>(xs: seq<T>)
    requires Distinct(xs)
    ensures FirstSeen(xs) == xs
  {
    if xs != [] {
      var p := xs[..|xs| - 1];
      assert Distinct(p);
      FirstSeenOfDistinct(p);
      assert xs[|xs| - 1] !in p;
      assert p + [xs[|xs| - 1]] == xs;
    }
  }

  /** `FirstSeen` keeps exactly the values of its input. */
  lemma InFirstSeen<T>(xs: seq<T>, x: T)
    ensures x in FirstSeen(xs) <==> x in xs
  {
    if x in FirstSeen(xs) {
      var i :| 0 <= i < |FirstSeen(xs)| && FirstSeen(xs)[i] == x;
    }
    if x in xs {
      var i :| 0 <= i < |xs| && xs[i] == x;
    }
  }
}
