/** Python's insertion-ordered `dict`: iteration visits keys in the order they
    were first inserted, and assigning to an existing key replaces its value
    without moving it. */
module Dicts {

  /** `keys` lists every key once, in first-insertion order; `entries` holds
      the current value of each key. */
  datatype Dict<K(==), V> = Dict(keys: seq<K>, entries: map<K, V>)

  /** The keys are listed without repetition, and exactly the keys of `entries` are listed. */
  ghost predicate Valid<K, V>(d: Dict<K, V>) {
    && (forall i, j :: 0 <= i < j < |d.keys| ==> d.keys[i] != d.keys[j])
    && d.entries.Keys == set k | k in d.keys
  }

  /** `{}` */
  function Empty<K(==), V>(): (d: Dict<K, V>)
    ensures Valid(d)
    ensures d.entries == map[] && d.keys == []
  {
    Dict([], map[])
  }

  /** `d[k] = v` */
  function Put<K(==), V>(d: Dict<K, V>, k: K, v: V): (r: Dict<K, V>)
    requires Valid(d)
    ensures Valid(r)
    ensures k in r.entries && r.entries[k] == v
    ensures r.entries.Keys == d.entries.Keys + {k}
    ensures forall k' :: k' != k && k' in d.entries ==> r.entries[k'] == d.entries[k']
    // an existing key keeps its place; a new key is iterated last
    ensures k in d.entries ==> r.keys == d.keys
    ensures k !in d.entries ==> r.keys == d.keys + [k]
  {
    if k in d.entries then Dict(d.keys, d.entries[k := v])
    else Dict(d.keys + [k], d.entries[k := v])
  }

  /** Assigning a key twice is assigning it once, with the second value. */
  lemma PutTwice<K, V>(d: Dict<K, V>, k: K, v: V, v': V)
    requires Valid(d)
    ensures Put(Put(d, k, v), k, v') == Put(d, k, v')
  {
    var once := Put(d, k, v);
    assert once.keys == if k in d.entries then d.keys else d.keys + [k];
    assert once.entries[k := v'] == d.entries[k := v'];
  }

  /** `list(d.values())`: the values in iteration order. */
  function Values<K(==), V>(d: Dict<K, V>): (vs: seq<V>)
    requires Valid(d)
    ensures |vs| == |d.keys|
    ensures forall i :: 0 <= i < |vs| ==> d.keys[i] in d.entries && vs[i] == d.entries[d.keys[i]]
  {
    seq(|d.keys|, i requires 0 <= i < |d.keys| => d.entries[d.keys[i]])
  }

  /** Iterating the values after `d[k] = v`: a new key's value comes last,
      and an existing key's value is replaced where it stood. */
  lemma ValuesPut<K, V>(d: Dict<K, V>, k: K, v: V)
    requires Valid(d)
    ensures k !in d.entries ==> Values(Put(d, k, v)) == Values(d) + [v]
    ensures forall i :: 0 <= i < |d.keys| && d.keys[i] == k ==> Values(Put(d, k, v)) == Values(d)[i := v]
  {
    if k in d.entries {
      forall i | 0 <= i < |d.keys| && d.keys[i] == k ensures Values(Put(d, k, v)) == Values(d)[i := v] {
        forall j | 0 <= j < |d.keys| ensures Values(Put(d, k, v))[j] == Values(d)[i := v][j] {
          if j != i { assert d.keys[j] != k; }
        }
      }
    }
  }
}
