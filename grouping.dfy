/**
 * Grouping records by a string key into a dictionary of arrays, as
 * `groupCommitsByAuthor` does (run-files/gitlab-cli.js) and as the inline
 * `commitsByAuthor` loop does (gitlab-two-weeks.js).
 */
module Grouping {
  import opened Seqs
  import opened Objects

  /** The key of every record, in input order. */
  function KeysOf<T>(s: seq<T>, key: T -> string): (ks: seq<string>)
    ensures |ks| == |s|
  {
    seq(|s|, i requires 0 <= i < |s| => key(s[i]))
  }

  /** The records with key `k`, in input order. */
  function Having<T>(s: seq<T>, key: T -> string, k: string): (r: seq<T>)
    ensures |r| <= |s|
  {
    if s == [] then []
    else Having(s[..|s| - 1], key, k) + (if key(s[|s| - 1]) == k then [s[|s| - 1]] else [])
  }

  /** A group holds only records of the input that have its key. */
  lemma {:induction false} HavingMembers<T>(s: seq<T>, key: T -> string, k: string)
    ensures forall i :: 0 <= i < |Having(s, key, k)| ==> Having(s, key, k)[i] in s && key(Having(s, key, k)[i]) == k
  {
    if s != [] {
      HavingMembers(s[..|s| - 1], key, k);
    }
  }

  lemma HavingSnoc<T>(s: seq<T>, x: T, key: T -> string, k: string)
    ensures Having(s + [x], key, k) == Having(s, key, k) + (if key(x) == k then [x] else [])
  {
    assert (s + [x])[..|s|] == s;
  }

  lemma KeysOfSnoc<T>(s: seq<T>, x: T, key: T -> string)
    ensures KeysOf(s + [x], key) == KeysOf(s, key) + [key(x)]
  {
  }

  /** No record has key `k` exactly when the group for `k` is empty. */
  lemma {:induction false} HavingEmpty<T>(s: seq<T>, key: T -> string, k: string)
    ensures Having(s, key, k) == [] <==> k !in KeysOf(s, key)
  {
    if s != [] {
      var p := s[..|s| - 1];
      HavingEmpty(p, key, k);
      assert s == p + [s[|s| - 1]];
      KeysOfSnoc(p, s[|s| - 1], key);
    }
  }

  /** `g` is the grouping of the records `s`. */
  ghost predicate IsGrouping<T>(g: Dict<seq<T>>, s: seq<T>, key: T -> string) {
    && g.Valid()
    && g.keys == FirstSeen(KeysOf(s, key))
    && forall k :: k in g.vals ==> g.vals[k] == Having(s, key, k)
  }

  /** The array the loop pushes `x` onto: the existing group, or a new one. */
  function Pushed<T>(g: Dict<seq<T>>, x: T, key: T -> string): Dict<seq<T>>
    requires g.Valid()
  {
    Put(g, key(x), (if key(x) in g.vals then g.vals[key(x)] else []) + [x])
  }

  lemma PushedKeys<T>(g: Dict<seq<T>>, s: seq<T>, x: T, key: T -> string)
    requires IsGrouping(g, s, key)
    ensures Pushed(g, x, key).keys == FirstSeen(KeysOf(s + [x], key))
  {
    KeysOfSnoc(s, x, key);
    FirstSeenSnoc(KeysOf(s, key), key(x));
  }

  lemma PushedValues<T>(g: Dict<seq<T>>, s: seq<T>, x: T, key: T -> string)
    requires IsGrouping(g, s, key)
    ensures forall k :: k in Pushed(g, x, key).vals ==> Pushed(g, x, key).vals[k] == Having(s + [x], key, k)
  {
    var k := key(x);
    HavingEmpty(s, key, k);
    assert k !in g.vals ==> Having(s, key, k) == [];
    var g' := Pushed(g, x, key);
    forall k' | k' in g'.vals ensures g'.vals[k'] == Having(s + [x], key, k') {
      HavingSnoc(s, x, key, k');
      if k' != k {
        assert g'.vals[k'] == g.vals[k'];
      }
    }
  }

  /** Creating the missing array and then pushing is the same as `Pushed`. */
  lemma PushInTwoSteps<T>(g: Dict<seq<T>>, x: T, key: T -> string)
    requires g.Valid()
    ensures var created := if key(x) !in g.vals then Put(g, key(x), []) else g;
      Put(created, key(x), created.vals[key(x)] + [x]) == Pushed(g, x, key)
  {
    if key(x) !in g.vals {
      PutPut(g, key(x), [], [x]);
    }
  }

  /** One step of the grouping loop keeps `IsGrouping` for one more record. */
  lemma GroupStep<T>(g: Dict<seq<T>>, s: seq<T>, x: T, key: T -> string)
    requires IsGrouping(g, s, key)
    ensures IsGrouping(Pushed(g, x, key), s + [x], key)
  {
    PushedKeys(g, s, x, key);
    PushedValues(g, s, x, key);
  }

  /**
   * The grouping loop: for every record, create the key's array on first
   * sight and push the record onto it.
   */
  method GroupBy<T>(s: seq<T>, key: T -> string) returns (g: Dict<seq<T>>)
    ensures g.Valid()
    ensures g.keys == FirstSeen(KeysOf(s, key))
    ensures forall k :: k in g.vals ==> g.vals[k] == Having(s, key, k)
  {
    g := Empty();
    var i := 0;
    while i < |s|
      invariant 0 <= i <= |s|
      invariant IsGrouping(g, s[..i], key)
    {
      var x := s[i];
      var k := key(x);
      GroupStep(g, s[..i], x, key);
      PrefixSnoc(s, i);
      PushInTwoSteps(g, x, key);
      var created := if k !in g.vals then Put(g, k, []) else g;
      g := Put(created, k, created.vals[k] + [x]);
      i := i + 1;
    }
    assert s[..i] == s;
  }

  /** The sum of the group sizes for the keys `ks`. */
  function SizeSum<T>(s: seq<T>, key: T -> string, ks: seq<string>): nat {
    if ks == [] then 0 else SizeSum(s, key, ks[..|ks| - 1]) + |Having(s, key, ks[|ks| - 1])|
  }

  lemma {:induction false} SizeSumOthers<T>(s: seq<T>, x: T, key: T -> string, ks: seq<string>)
    requires key(x) !in ks
    ensures SizeSum(s + [x], key, ks) == SizeSum(s, key, ks)
  {
    if ks != [] {
      SizeSumOthers(s, x, key, ks[..|ks| - 1]);
      HavingSnoc(s, x, key, ks[|ks| - 1]);
    }
  }

  lemma {:induction false} SizeSumOwn<T>(s: seq<T>, x: T, key: T -> string, ks: seq<string>)
    requires key(x) in ks && Distinct(ks)
    ensures SizeSum(s + [x], key, ks) == SizeSum(s, key, ks) + 1
  {
    var init := ks[..|ks| - 1];
    HavingSnoc(s, x, key, ks[|ks| - 1]);
    if ks[|ks| - 1] == key(x) {
      assert key(x) !in init;
      SizeSumOthers(s, x, key, init);
    } else {
      assert key(x) in init;
      SizeSumOwn(s, x, key, init);
    }
  }

  /** Grouping is a partition: the group sizes add up to the number of records. */
  lemma {:induction false} GroupSizesSum<T>(s: seq<T>, key: T -> string)
    ensures SizeSum(s, key, FirstSeen(KeysOf(s, key))) == |s|
  {
    if s != [] {
      var p := s[..|s| - 1];
      var x := s[|s| - 1];
      assert s == p + [x];
      GroupSizesSum(p, key);
      KeysOfSnoc(p, x, key);
      FirstSeenSnoc(KeysOf(p, key), key(x));
      var ks := FirstSeen(KeysOf(p, key));
      if key(x) in KeysOf(p, key) {
        SizeSumOwn(p, x, key, ks);
      } else {
        assert key(x) !in ks;
        SizeSumOthers(p, x, key, ks);
        HavingEmpty(p, key, key(x));
        HavingSnoc(p, x, key, key(x));
      }
    }
  }

  /** Every record is in the group of its own key, and in no other group. */
  lemma {:induction false} InOwnGroup<T>(s: seq<T>, key: T -> string, i: nat)
    requires i < |s|
    ensures s[i] in Having(s, key, key(s[i]))
    ensures forall k :: k != key(s[i]) ==> s[i] !in Having(s, key, k)
  {
    forall k | k != key(s[i]) ensures s[i] !in Having(s, key, k) {
      HavingMembers(s, key, k);
    }
    var p := s[..|s| - 1];
    assert s == p + [s[|s| - 1]];
    HavingSnoc(p, s[|s| - 1], key, key(s[i]));
    if i < |s| - 1 {
      assert s[i] == p[i];
      InOwnGroup(p, key, i);
    }
  }
}
