/**
 * Python's `dict`, which remembers insertion order, as a sequence of
 * key/value pairs with distinct keys: `d.get(k)`, `d[k] = v` and `k in d`.
 */
module OrderedMap {
  import opened Wrappers

  /** Every dictionary of the application is keyed by a string. */
  type Dict<V> = seq<(string, V)>

  /** `list(d.keys())`, in insertion order. */
  function Keys<V>(d: Dict<V>): (r: seq<string>)
    ensures |r| == |d|
    ensures forall i :: 0 <= i < |d| ==> r[i] == d[i].0
  {
    if d == [] then [] else [d[0].0] + Keys(d[1..])
  }

  /** No key occurs twice, as in every Python dict. */
  predicate DistinctKeys<V>(d: Dict<V>) {
    forall i, j :: 0 <= i < j < |d| ==> d[i].0 != d[j].0
  }

  /** `d.get(k)`: the value stored under `k`, or None when `k` is absent. */
  function Get<V>(d: Dict<V>, k: string): (r: Option<V>)
    ensures r.None? <==> k !in Keys(d)
    ensures r.Some? ==> (k, r.value) in d
  {
    if d == [] then None
    else if d[0].0 == k then Some(d[0].1)
    else Get(d[1..], k)
  }

  /** With distinct keys, the lookup of a stored key gives exactly the value stored beside it. */
  lemma {:induction false} GetStored<V>(d: Dict<V>, i: nat)
    requires DistinctKeys(d) && i < |d|
    ensures Get(d, d[i].0) == Some(d[i].1)
  {
    if i > 0 {
      assert d[0].0 != d[i].0;
      assert d[1..][i - 1] == d[i];
      GetStored(d[1..], i - 1);
    }
  }

  /** The position of a key that is present. */
  function IndexOf<V>(d: Dict<V>, k: string): (i: nat)
    requires k in Keys(d)
    ensures i < |d| && d[i].0 == k
    ensures forall j :: 0 <= j < i ==> d[j].0 != k
  {
    if d[0].0 == k then 0 else 1 + IndexOf(d[1..], k)
  }

  /** `d[k] = v`: replaces the value of an existing key in place, or appends a new entry at the end. */
  function Put<V>(d: Dict<V>, k: string, v: V): (r: Dict<V>)
    ensures Keys(r) == if k in Keys(d) then Keys(d) else Keys(d) + [k]
    ensures |r| == |d| || |r| == |d| + 1
    ensures DistinctKeys(d) ==> DistinctKeys(r)
  {
    if k in Keys(d) then d[IndexOf(d, k) := (k, v)] else d + [(k, v)]
  }

  /** After `d[k] = v`, `d.get(k)` gives `v` and every other key keeps its value. */
  lemma PutGet<V>(d: Dict<V>, k: string, v: V)
    ensures Get(Put(d, k, v), k) == Some(v)
    ensures forall k' :: k' != k ==> Get(Put(d, k, v), k') == Get(d, k')
  {
    if k in Keys(d) {
      UpdateGet(d, IndexOf(d, k), v);
    } else {
      AppendGet(d, k, v);
    }
  }

  lemma {:induction false} UpdateGet<V>(d: Dict<V>, i: nat, v: V)
    requires i < |d| && forall j :: 0 <= j < i ==> d[j].0 != d[i].0
    ensures Get(d[i := (d[i].0, v)], d[i].0) == Some(v)
    ensures forall k' :: k' != d[i].0 ==> Get(d[i := (d[i].0, v)], k') == Get(d, k')
  {
    if i > 0 {
      assert d[1..][i - 1] == d[i];
      UpdateGet(d[1..], i - 1, v);
      assert d[i := (d[i].0, v)][1..] == d[1..][i - 1 := (d[i].0, v)];
    }
  }

  lemma {:induction false} AppendGet<V>(d: Dict<V>, k: string, v: V)
    requires k !in Keys(d)
    ensures Get(d + [(k, v)], k) == Some(v)
    ensures forall k' :: k' != k ==> Get(d + [(k, v)], k') == Get(d, k')
  {
    if d != [] {
      assert (d + [(k, v)])[1..] == d[1..] + [(k, v)];
      AppendGet(d[1..], k, v);
    }
  }

  /** Putting at the key of position `i` of a dict replaces the value there and keeps every other entry. */
  lemma PutAt<V>(d: Dict<V>, i: nat, v: V)
    requires DistinctKeys(d) && i < |d|
    ensures Put(d, d[i].0, v) == d[i := (d[i].0, v)]
  {
    assert Keys(d)[i] == d[i].0;
    var j := IndexOf(d, d[i].0);
    assert i == j;
  }

  /** Putting a key that is not yet present appends it. */
  lemma PutNew<V>(d: Dict<V>, k: string, v: V)
    requires k !in Keys(d)
    ensures Put(d, k, v) == d + [(k, v)]
  {
  }

  /** Two puts of a new key: the first appends it, the second replaces the value it appended. */
  lemma PutNewTwice<V>(d: Dict<V>, k: string, v: V, w: V)
    requires k !in Keys(d)
    ensures Get(Put(d, k, v), k) == Some(v)
    ensures Put(Put(d, k, v), k, w) == d + [(k, w)]
  {
    var d1 := d + [(k, v)];
    AppendGet(d, k, v);
    forall i | 0 <= i < |d| ensures d1[i].0 != k {
      assert Keys(d)[i] == d[i].0;
    }
    assert Keys(d1)[|d|] == k;
    assert IndexOf(d1, k) == |d|;
    assert d1[|d| := (k, w)] == d + [(k, w)];
  }

  /** `a` can be obtained from `b` by deleting elements, so it keeps `b`'s order. */
  predicate IsSubsequence<T(==)>(a: seq<T>, b: seq<T>)
    decreases |b|
  {
    a == [] || (b != [] && ((a[0] == b[0] && IsSubsequence(a[1..], b[1..])) || IsSubsequence(a, b[1..])))
  }
}
