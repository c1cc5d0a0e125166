/**
 * A plain JavaScript object used as a dictionary from string keys: iterating its keys
 * visits the keys in the order they were first assigned, and assigning an
 * existing key replaces its value without moving it.
 */
module Objects {
  import opened Seqs

  datatype Dict<V> = Dict(keys: seq<string>, vals: map<string, V>) {
    /** The key order lists each present key exactly once. */
    ghost predicate Valid() {
      Distinct(keys) && (forall k :: k in vals <==> k in keys)
    }
  }

  /** `{}` */
  function Empty<V>(): (d: Dict<V>)
    ensures d.Valid() && d.keys == []
  {
    Dict([], map[])
  }

  /** Assigning `v` to the key `k`. */
  function Put<V>(d: Dict<V>, k: string, v: V): (r: Dict<V>)
    requires d.Valid()
    ensures r.Valid()
    ensures r.vals == d.vals[k := v]
    ensures r.keys == if k in d.vals then d.keys else d.keys + [k]
  {
    if k in d.vals then Dict(d.keys, d.vals[k := v]) else Dict(d.keys + [k], d.vals[k := v])
  }

  /** Assigning a key twice leaves the second value, at the position of the first assignment. */
  lemma PutPut<V>(d: Dict<V>, k: string, v: V, w: V)
    requires d.Valid()
    ensures Put(Put(d, k, v), k, w) == Put(d, k, w)
  {
  }

  /** Assigning keys in the order of `xs` lists them in first-assignment order: one more assignment. */
  lemma PutFirstSeen<V>(d: Dict<V>, xs: seq<string>, k: string, v: V)
    requires d.Valid() && d.keys == FirstSeen(xs)
    ensures Put(d, k, v).keys == FirstSeen(xs + [k])
  {
    FirstSeenSnoc(xs, k);
    InFirstSeen(xs, k);
  }

  /**
   * Assigning the distinct keys of `xs` in order, each to its value under `f`:
   * one more assignment extends the key order by the next key and keeps
   * every value given by `f`.
   */
  lemma PutNext<V>(d: Dict<V>, xs: seq<string>, j: nat, f: string -> V)
    requires d.Valid() && Distinct(xs) && j < |xs| && d.keys == xs[..j]
    requires forall b :: b in d.vals ==> d.vals[b] == f(b)
    ensures Put(d, xs[j], f(xs[j])).keys == xs[..j + 1]
    ensures forall b :: b in Put(d, xs[j], f(xs[j])).vals ==> Put(d, xs[j], f(xs[j])).vals[b] == f(b)
  {
    PrefixSnoc(xs, j);
    assert xs[j] !in xs[..j];
  }

  /** An empty object after each of the first `j` keys of `xs` is assigned its value under `f`. */
  function Assigned<V>(xs: seq<string>, f: string -> V, j: nat): (d: Dict<V>)
    requires j <= |xs|
    ensures d.Valid()
  {
    if j == 0 then Empty() else Put(Assigned(xs, f, j - 1), xs[j - 1], f(xs[j - 1]))
  }

  /** Assigning distinct keys in order lists them in that order, each with its value under `f`. */
  lemma {:induction false} AssignedMeaning<V>(xs: seq<string>, f: string -> V, j: nat)
    requires Distinct(xs) && j <= |xs|
    ensures Assigned(xs, f, j).keys == xs[..j]
    ensures forall b :: b in Assigned(xs, f, j).vals ==> Assigned(xs, f, j).vals[b] == f(b)
  {
    if j > 0 {
      AssignedMeaning(xs, f, j - 1);
      PutNext(Assigned(xs, f, j - 1), xs, j - 1, f);
    }
  }
}
