/**
 * Python's `dict`: a finite map together with the order in which its keys
 * were first inserted. Assigning to a key that is already present keeps its
 * position; a new key goes to the end. Iteration follows `keys`.
 */
module Dicts {

  datatype Dict<K(!new), V> = Dict(keys: seq<K>, items: map<K, V>) {

    /** Keys are distinct and are exactly the keys of the map. */
    ghost predicate Valid() {
      && (forall i, j :: 0 <= i < j < |keys| ==> keys[i] != keys[j])
      && (forall k :: k in items <==> k in keys)
    }

    /** `d[k] = v` */
    function Set(k: K, v: V): (d: Dict<K, V>)
      ensures Valid() ==> d.Valid()
      ensures d.items == items[k := v]
      ensures k in items ==> d.keys == keys
      ensures k !in items ==> d.keys == keys + [k]
    {
      if k in items then Dict(keys, items[k := v]) else Dict(keys + [k], items[k := v])
    }

    /** `list(d.values())` */
    function Values(): (vs: seq<V>)
      requires Valid()
      ensures |vs| == |keys|
      ensures forall i :: 0 <= i < |keys| ==> vs[i] == items[keys[i]]
    {
      seq(|keys|, i requires 0 <= i < |keys| => items[keys[i]])
    }
  }

  /** `{}` */
  function Empty<K(!new), V>(): (d: Dict<K, V>)
    ensures d.Valid() && d.keys == [] && d.items == map[]
  {
    Dict([], map[])
  }

  /** A value of a valid dict sits at the position of its key. */
  lemma ValuesIndex<K(!new), V>(d: Dict<K, V>, k: K)
    requires d.Valid() && k in d.items
    ensures exists i :: 0 <= i < |d.keys| && d.keys[i] == k && d.Values()[i] == d.items[k]
  {
    var i :| 0 <= i < |d.keys| && d.keys[i] == k;
  }
}
