/** Python dictionaries keep their keys in insertion order, and the order of the scraped
    tables reaches the output; such a dictionary is modelled as a list of key/value pairs
    with distinct keys; every dictionary of the scrapers is keyed by text. */
module OrderedMap {
  import opened Wrappers

  type Assoc<V> = seq<(string, V)>

  function Keys<V>(m: Assoc<V>): (ks: seq<string>)
    ensures |ks| == |m|
    ensures forall i :: 0 <= i < |m| ==> ks[i] == m[i].0
  {
    if m == [] then [] else Keys(m[..|m| - 1]) + [m[|m| - 1].0]
  }

  predicate DistinctKeys<V>(m: Assoc<V>) {
    forall i, j :: 0 <= i < j < |m| ==> m[i].0 != m[j].0
  }

  /** d.get(k): the value stored under k, if any. */
  function Get<V>(m: Assoc<V>, k: string): (r: Option<V>)
    ensures r.None? <==> k !in Keys(m)
    ensures r.Some? ==> exists i :: 0 <= i < |m| && m[i] == (k, r.value)
  {
    if m == [] then None
    else if m[|m| - 1].0 == k then Some(m[|m| - 1].1)
    else Get(m[..|m| - 1], k)
  }

  /** d[k] = v: an existing key keeps its place and takes the new value, a new key
      goes to the end. */
  function Put<V>(m: Assoc<V>, k: string, v: V): (r: Assoc<V>)
    requires DistinctKeys(m)
    ensures DistinctKeys(r)
    ensures Get(r, k) == Some(v)
    ensures forall k' :: k' != k ==> Get(r, k') == Get(m, k')
    ensures Keys(r) == if k in Keys(m) then Keys(m) else Keys(m) + [k]
  {
    if k in Keys(m) then
      var i :| 0 <= i < |m| && m[i].0 == k;
      PutAt(m, i, v)
    else
      AppendNew(m, k, v);
      m + [(k, v)]
  }

  function PutAt<V>(m: Assoc<V>, i: nat, v: V): (r: Assoc<V>)
    requires DistinctKeys(m) && i < |m|
    ensures DistinctKeys(r)
    ensures Keys(r) == Keys(m)
    ensures Get(r, m[i].0) == Some(v)
    ensures forall k' :: k' != m[i].0 ==> Get(r, k') == Get(m, k')
  {
    var r := m[i := (m[i].0, v)];
    GetDistinct(r, i);
    assert Keys(r) == Keys(m);
    forall k' | k' != m[i].0 ensures Get(r, k') == Get(m, k') {
      GetUnchanged(m, r, i, k');
    }
    r
  }

  /** In a list with distinct keys, looking up the key of entry i finds entry i. */
  lemma {:induction false} GetDistinct<V>(m: Assoc<V>, i: nat)
    requires DistinctKeys(m) && i < |m|
    ensures Get(m, m[i].0) == Some(m[i].1)
    decreases |m|
  {
    if i != |m| - 1 {
      GetDistinct(m[..|m| - 1], i);
    }
  }

  lemma {:induction false} GetUnchanged<V>(m: Assoc<V>, r: Assoc<V>, i: nat, k: string)
    requires |r| == |m| && i < |m| && k != m[i].0 && r[i].0 == m[i].0
    requires forall j :: 0 <= j < |m| && j != i ==> r[j] == m[j]
    ensures Get(r, k) == Get(m, k)
    decreases |m|
  {
    if |m| > 0 && i != |m| - 1 {
      GetUnchanged(m[..|m| - 1], r[..|r| - 1], i, k);
    } else if |m| > 0 {
      assert r[..|r| - 1] == m[..|m| - 1];
    }
  }

  lemma AppendNew<V>(m: Assoc<V>, k: string, v: V)
    requires DistinctKeys(m) && k !in Keys(m)
    ensures DistinctKeys(m + [(k, v)])
    ensures Get(m + [(k, v)], k) == Some(v)
    ensures forall k' :: k' != k ==> Get(m + [(k, v)], k') == Get(m, k')
    ensures Keys(m + [(k, v)]) == Keys(m) + [k]
  {
    var r := m + [(k, v)];
    assert r[..|r| - 1] == m;
    forall i | 0 <= i < |m| ensures m[i].0 != k {
      assert Keys(m)[i] == m[i].0;
    }
  }

  /** The last entry of a key is the one Get finds. */
  lemma {:induction false} GetLast<V>(m: Assoc<V>, i: nat)
    requires i < |m|
    requires forall j :: i < j < |m| ==> m[j].0 != m[i].0
    ensures Get(m, m[i].0) == Some(m[i].1)
  {
    if i < |m| - 1 {
      GetLast(m[..|m| - 1], i);
    }
  }

  /** After d[k] = v the keys are the old keys and k. */
  lemma PutKeys<V>(m: Assoc<V>, k: string, v: V, key: string)
    requires DistinctKeys(m)
    ensures key in Keys(Put(m, k, v)) <==> key in Keys(m) || key == k
  {
    if k !in Keys(m) {
      assert key in Keys(m) + [k] <==> key in Keys(m) || key == k;
    }
  }
}
