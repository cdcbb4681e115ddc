/** Python's `dict` as the scraper uses it for `api_docs`: a map that
    remembers the order in which keys were first inserted
    (api_doc_generator/scraper.py:34 and :279), so that iterating it later
    (api_doc_generator/generator.py:119) visits pages in scrape order. */
module OrderedMaps {

  /** The keys in insertion order, and the map itself. */
  datatype OrderedMap<K(!new), V> = OrderedMap(keys: seq<K>, entries: map<K, V>) {

    /** The key list has no duplicates and lists exactly the map's keys. */
    ghost predicate Valid() {
      && (forall i, j :: 0 <= i < j < |keys| ==> keys[i] != keys[j])
      && (forall k :: k in entries <==> k in keys)
    }

    /** `d[k] = v`: a new key goes to the end, an existing key keeps its
        place and gets the new value. */
    function Put(k: K, v: V): (r: OrderedMap<K, V>)
      ensures r.entries == entries[k := v]
      ensures k in entries ==> r.keys == keys
      ensures k !in entries ==> r.keys == keys + [k]
    {
      if k in entries then OrderedMap(keys, entries[k := v])
      else OrderedMap(keys + [k], entries[k := v])
    }

    /** `len(d)`. */
    function Size(): nat {
      |keys|
    }
  }

  /** `{}`. */
  function Empty<K(!new), V>(): (m: OrderedMap<K, V>)
    ensures m.Valid() && m.Size() == 0
  {
    OrderedMap([], map[])
  }

  /** Assignment keeps the map well formed, finds the new value under its
      key, and leaves every other key and its position untouched. */
  lemma PutSpec<K(!new), V>(m: OrderedMap<K, V>, k: K, v: V)
    requires m.Valid()
    ensures m.Put(k, v).Valid()
    ensures m.Put(k, v).entries[k] == v
    ensures forall j :: j != k && j in m.entries ==> j in m.Put(k, v).entries && m.Put(k, v).entries[j] == m.entries[j]
    ensures forall i :: 0 <= i < |m.keys| ==> m.Put(k, v).keys[i] == m.keys[i]
    ensures m.Put(k, v).Size() == if k in m.entries then m.Size() else m.Size() + 1
  {
  }
}
