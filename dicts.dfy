/** Python's `dict` as the scripts use it: an insertion-ordered association list with unique
    keys. Assigning to a present key keeps its position; a new key goes to the end. */
module Dicts {
  import opened Wrappers
  import opened Seqs

  type Dict<K(==), V> = seq<(K, V)>

  function Keys<K, V>(d: Dict<K, V>): (ks: seq<K>)
    ensures |ks| == |d|
    ensures forall i :: 0 <= i < |d| ==> ks[i] == d[i].0
  {
    seq(|d|, i requires 0 <= i < |d| => d[i].0)
  }

  /** No key occurs twice. */
  predicate Valid<K, V>(d: Dict<K, V>) {
    forall i, j :: 0 <= i < j < |d| ==> d[i].0 != d[j].0
  }

  /** `d.get(k)`: the value beside the first copy of `k`. */
  function Get<K(==), V>(d: Dict<K, V>, k: K): Option<V> {
    if d == [] then None
    else if d[0].0 == k then Some(d[0].1)
    else Get(d[1..], k)
  }

  /** A key reads a value exactly when it is one of the keys, and the value read is stored
      beside it. */
  lemma {:induction false} GetKeys<K, V>(d: Dict<K, V>, k: K)
    ensures Get(d, k).None? <==> k !in Keys(d)
    ensures Get(d, k).Some? ==> exists i :: 0 <= i < |d| && d[i] == (k, Get(d, k).value)
  {
    if d != [] {
      assert Keys(d) == [d[0].0] + Keys(d[1..]);
      if d[0].0 != k {
        GetKeys(d[1..], k);
        var r := Get(d[1..], k);
        if r.Some? {
          var i :| 0 <= i < |d[1..]| && d[1..][i] == (k, r.value);
          assert d[i + 1] == (k, r.value);
        }
      }
    }
  }

  /** `d[k] = v`. */
  function Put<K(==), V>(d: Dict<K, V>, k: K, v: V): Dict<K, V> {
    if d == [] then [(k, v)]
    else if d[0].0 == k then [(k, v)] + d[1..]
    else [d[0]] + Put(d[1..], k, v)
  }

  /** Assigning to a present key keeps the keys where they are; a new key goes to the end. */
  lemma {:induction false} PutKeys<K, V>(d: Dict<K, V>, k: K, v: V)
    ensures k in Keys(d) ==> Keys(Put(d, k, v)) == Keys(d)
    ensures k !in Keys(d) ==> Put(d, k, v) == d + [(k, v)]
  {
    if d != [] && d[0].0 != k {
      var rest := Put(d[1..], k, v);
      assert Put(d, k, v) == [d[0]] + rest;
      PutKeys(d[1..], k, v);
      assert d == [d[0]] + d[1..];
      KeysCons(d[0], d[1..]);
      KeysCons(d[0], rest);
      if k !in Keys(d) {
        AppendAssoc([d[0]], d[1..], [(k, v)]);
      }
    }
  }

  lemma KeysCons<K, V>(x: (K, V), d: Dict<K, V>)
    ensures Keys([x] + d) == [x.0] + Keys(d)
  {
  }

  lemma GetCons<K, V>(x: (K, V), d: Dict<K, V>, k: K)
    ensures Get([x] + d, k) == if x.0 == k then Some(x.1) else Get(d, k)
  {
    assert ([x] + d)[1..] == d;
  }

  /** Assigning makes `k` read `v` and leaves every other key as it was. */
  lemma {:induction false} PutGet<K, V>(d: Dict<K, V>, k: K, v: V, j: K)
    ensures Get(Put(d, k, v), j) == if j == k then Some(v) else Get(d, j)
  {
    if d != [] {
      GetCons(d[0], d[1..], j);
      if d[0].0 == k {
        GetCons((k, v), d[1..], j);
      } else {
        PutGet(d[1..], k, v, j);
        GetCons(d[0], Put(d[1..], k, v), j);
      }
    }
  }

  /** Assigning adds no entry other than `(k, v)`. */
  lemma {:induction false} PutElems<K, V>(d: Dict<K, V>, k: K, v: V)
    ensures forall e :: e in Put(d, k, v) ==> e in d || e == (k, v)
  {
    if d != [] && d[0].0 != k {
      PutElems(d[1..], k, v);
    }
  }

  /** Assigning keeps the keys unique. */
  lemma PutValid<K, V>(d: Dict<K, V>, k: K, v: V)
    requires Valid(d)
    ensures Valid(Put(d, k, v))
  {
    var r := Put(d, k, v);
    PutKeys(d, k, v);
    if k in Keys(d) {
      assert forall i :: 0 <= i < |r| ==> r[i].0 == Keys(r)[i] == Keys(d)[i];
    }
  }

  /** `{k: v for k, v in d.items() if keep(k)}`. */
  function FilterKeys<K, V>(d: Dict<K, V>, keep: K -> bool): (r: Dict<K, V>)
    ensures |r| <= |d|
  {
    if d == [] then [] else (if keep(d[0].0) then [d[0]] else []) + FilterKeys(d[1..], keep)
  }

  /** The filtered dict reads like the original on kept keys and reads nothing elsewhere. */
  lemma {:induction false} FilterKeysGet<K, V>(d: Dict<K, V>, keep: K -> bool, k: K)
    ensures Get(FilterKeys(d, keep), k) == if keep(k) then Get(d, k) else None
  {
    if d != [] {
      FilterKeysGet(d[1..], keep, k);
      GetCons(d[0], d[1..], k);
      if keep(d[0].0) {
        GetCons(d[0], FilterKeys(d[1..], keep), k);
      } else {
        assert FilterKeys(d, keep) == FilterKeys(d[1..], keep);
      }
    }
  }
}
