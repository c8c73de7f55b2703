/** Python dictionaries: pairs in insertion order, where assigning to a present key keeps its place. */
module Dicts {
  import opened Options

  type Dict<K, V> = seq<(K, V)>

  ghost predicate DistinctKeys<K, V>(d: Dict<K, V>) {
    forall i, j :: 0 <= i < j < |d| ==> d[i].0 != d[j].0
  }

  predicate Has<K(==), V>(d: Dict<K, V>, k: K) {
    exists i :: 0 <= i < |d| && d[i].0 == k
  }

  function Put<K(==), V>(d: Dict<K, V>, k: K, v: V): Dict<K, V> {
    if d == [] then [(k, v)]
    else if d[0].0 == k then [(k, v)] + d[1..]
    else [d[0]] + Put(d[1..], k, v)
  }

  function Lookup<K(==), V>(d: Dict<K, V>, k: K): (r: Option<V>) {
    if d == [] then None
    else if d[0].0 == k then Some(d[0].1)
    else Lookup(d[1..], k)
  }

  function Keys<K, V>(d: Dict<K, V>): seq<K> {
    seq(|d|, i requires 0 <= i < |d| => d[i].0)
  }

  function Values<K, V>(d: Dict<K, V>): seq<V> {
    seq(|d|, i requires 0 <= i < |d| => d[i].1)
  }

  lemma {:induction false} LookupIsMembership<K, V>(d: Dict<K, V>, k: K)
    requires DistinctKeys(d)
    ensures Lookup(d, k).Some? <==> Has(d, k)
    ensures forall i :: 0 <= i < |d| && d[i].0 == k ==> Lookup(d, k) == Some(d[i].1)
  {
    if d != [] {
      LookupIsMembership(d[1..], k);
      if Has(d, k) && d[0].0 != k {
        var i :| 0 <= i < |d| && d[i].0 == k;
        assert d[1..][i - 1].0 == k;
      }
      forall i | 0 <= i < |d| && d[i].0 == k ensures Lookup(d, k) == Some(d[i].1) {
        if i > 0 { assert d[1..][i - 1] == d[i]; }
      }
    }
  }

  lemma HasUnfolds<K, V>(d: Dict<K, V>, k: K)
    requires d != []
    ensures Has(d, k) <==> d[0].0 == k || Has(d[1..], k)
  {
    if Has(d, k) && d[0].0 != k {
      var i :| 0 <= i < |d| && d[i].0 == k;
      assert d[1..][i - 1].0 == k;
    }
    if Has(d[1..], k) {
      var i :| 0 <= i < |d[1..]| && d[1..][i].0 == k;
      assert d[i + 1].0 == k;
    }
  }

  lemma KeysUnfold<K, V>(d: Dict<K, V>)
    requires d != []
    ensures Keys(d) == [d[0].0] + Keys(d[1..])
  {
  }

  lemma {:induction false} PutKeys<K, V>(d: Dict<K, V>, k: K, v: V)
    ensures Keys(Put(d, k, v)) == if Has(d, k) then Keys(d) else Keys(d) + [k]
  {
    if d != [] {
      PutKeys(d[1..], k, v);
      HasUnfolds(d, k);
      KeysUnfold(d);
      KeysUnfold(Put(d, k, v));
    }
  }

  lemma DistinctByKeys<K, V>(d: Dict<K, V>, more: Dict<K, V>, k: K)
    requires DistinctKeys(d) && Keys(more) == if Has(d, k) then Keys(d) else Keys(d) + [k]
    ensures DistinctKeys(more)
  {
    forall i, j | 0 <= i < j < |more| ensures more[i].0 != more[j].0 {
      assert more[i].0 == Keys(more)[i] && more[j].0 == Keys(more)[j] && |Keys(more)| == |more|;
      assert i < |d| && Keys(d)[i] == d[i].0;
      if j < |d| { assert Keys(d)[j] == d[j].0; }
    }
  }

  lemma {:induction false} PutLookup<K, V>(d: Dict<K, V>, k: K, v: V)
    ensures Lookup(Put(d, k, v), k) == Some(v)
    ensures forall k' :: k' != k ==> Lookup(Put(d, k, v), k') == Lookup(d, k')
  {
    if d != [] && d[0].0 != k { PutLookup(d[1..], k, v); }
  }

  /** Assigning changes one entry, and appends the key if it is new. */
  lemma PutEffect<K, V>(d: Dict<K, V>, k: K, v: V)
    requires DistinctKeys(d)
    ensures DistinctKeys(Put(d, k, v))
    ensures Lookup(Put(d, k, v), k) == Some(v)
    ensures forall k' :: k' != k ==> Lookup(Put(d, k, v), k') == Lookup(d, k')
    ensures Keys(Put(d, k, v)) == if Has(d, k) then Keys(d) else Keys(d) + [k]
  {
    PutKeys(d, k, v);
    DistinctByKeys(d, Put(d, k, v), k);
    PutLookup(d, k, v);
  }
}
