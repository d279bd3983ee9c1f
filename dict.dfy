/**
 * A JavaScript object used as a dictionary: a value per key, and the keys in
 * the order in which they were first assigned. Assigning an existing key
 * replaces its value and leaves it where it stands; `Object.keys` lists the
 * keys in that order.
 */
module Dict {
  import opened Common

  datatype Dict<K(==), V> = Dict(keys: seq<K>, values: map<K, V>)

  /** Every key is listed once, and the listed keys are exactly those with a value. */
  ghost predicate Valid<K(!new), V>(d: Dict<K, V>)
  {
    (forall i, j :: 0 <= i < j < |d.keys| ==> d.keys[i] != d.keys[j])
    && (forall k :: k in d.values <==> k in d.keys)
  }

  /** `{}` */
  function Empty<K(==,!new), V>(): (r: Dict<K, V>)
    ensures Valid(r) && r.keys == []
  {
    Dict([], map[])
  }

  /** `d[k]`, or None when `k` was never assigned. */
  function Get<K(==,!new), V>(d: Dict<K, V>, k: K): (r: Option<V>)
  {
    if k in d.values then Some(d.values[k]) else None
  }

  /**
   * `d[k] = v`: reading `k` gives `v` and every other key what it gave before;
   * a new key goes last, an existing one keeps its place.
   */
  function Set<K(==,!new), V>(d: Dict<K, V>, k: K, v: V): (r: Dict<K, V>)
    ensures forall k' :: Get(r, k') == if k' == k then Some(v) else Get(d, k')
    ensures k in d.values ==> r.keys == d.keys
    ensures k !in d.values ==> r.keys == d.keys + [k]
  {
    Dict(if k in d.values then d.keys else d.keys + [k], d.values[k := v])
  }

  lemma SetKeepsValid<K(!new), V>(d: Dict<K, V>, k: K, v: V)
    requires Valid(d)
    ensures Valid(Set(d, k, v))
  {
  }
}
