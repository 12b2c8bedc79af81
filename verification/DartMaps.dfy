/** A Dart map: entries that keep the order they came in, each key once. */
module DartMaps {
  import opened Wrappers

  datatype Entry<K, V> = Entry(key: K, value: V)

  predicate IsMap<K(==), V>(entries: seq<Entry<K, V>>) {
    forall i, j :: 0 <= i < j < |entries| ==> entries[i].key != entries[j].key
  }

  function Held<K(==), V>(entries: seq<Entry<K, V>>, key: K): (value: Option<V>) {
    if entries == [] then None
    else if entries[0].key == key then Some(entries[0].value)
    else Held(entries[1..], key)
  }

  /** `map[key] = value`: a key already held keeps its place. */
  function Put<K(==), V>(entries: seq<Entry<K, V>>, key: K, value: V): (more: seq<Entry<K, V>>) {
    if entries == [] then [Entry(key, value)]
    else if entries[0].key == key then [Entry(key, value)] + entries[1..]
    else [entries[0]] + Put(entries[1..], key, value)
  }

  lemma {:induction false} InIsHeld<K, V>(entries: seq<Entry<K, V>>, entry: Entry<K, V>)
    requires IsMap(entries) && entry in entries
    ensures Held(entries, entry.key) == Some(entry.value)
  {
    var i :| 0 <= i < |entries| && entries[i] == entry;
    if i > 0 {
      assert entries[1..][i - 1] == entry;
      InIsHeld(entries[1..], entry);
    }
  }

  lemma {:induction false} PutAppends<K, V>(entries: seq<Entry<K, V>>, key: K, value: V)
    requires forall entry :: entry in entries ==> entry.key != key
    ensures Put(entries, key, value) == entries + [Entry(key, value)]
  {
    if entries != [] {
      assert entries[0] in entries;
      PutAppends(entries[1..], key, value);
    }
  }
}
