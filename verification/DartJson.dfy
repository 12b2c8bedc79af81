/** Decoded JSON as Dart holds it: an object is a map that keeps the order its entries came in, and
    holds a key once. */
module DartJson {
  import opened Wrappers
  import opened DartMaps

  datatype Json =
    | Null
    | Bool(truth: bool)
    | Int(number: int)
    | Text(text: string)
    | List(items: seq<Json>)
    | Object(entries: seq<Entry<string, Json>>)

  type JsonEntry = Entry<string, Json>

  predicate HoldsKey(entries: seq<JsonEntry>, key: string) {
    exists i :: 0 <= i < |entries| && entries[i].key == key
  }

  /** The entries under one of `keys`, in the object's order. */
  function Under(entries: seq<JsonEntry>, keys: seq<string>): (held: seq<JsonEntry>) {
    if entries == [] then []
    else if entries[0].key in keys then [entries[0]] + Under(entries[1..], keys)
    else Under(entries[1..], keys)
  }

  /** The entries under none of `keys`, in the object's order. */
  function Minus(entries: seq<JsonEntry>, keys: seq<string>): (left: seq<JsonEntry>) {
    if entries == [] then []
    else if entries[0].key in keys then Minus(entries[1..], keys)
    else [entries[0]] + Minus(entries[1..], keys)
  }

  // ----- what a Dart map does -----

  /** `map.remove(key)`. */
  function Removed(entries: seq<JsonEntry>, key: string): (left: seq<JsonEntry>) {
    if entries == [] then []
    else if entries[0].key == key then entries[1..]
    else [entries[0]] + Removed(entries[1..], key)
  }

  lemma {:induction false} HeldIsIn(entries: seq<JsonEntry>, key: string)
    ensures Held(entries, key).Some? <==> HoldsKey(entries, key)
    ensures Held(entries, key).Some? ==> Entry(key, Held(entries, key).value) in entries
  {
    if entries != [] {
      HeldIsIn(entries[1..], key);
      if HoldsKey(entries, key) && entries[0].key != key {
        var i :| 0 <= i < |entries| && entries[i].key == key;
        assert entries[1..][i - 1].key == key;
      }
    }
  }

  lemma {:induction false} UnderHolds(entries: seq<JsonEntry>, keys: seq<string>, entry: JsonEntry)
    ensures entry in Under(entries, keys) <==> entry in entries && entry.key in keys
  {
    if entries != [] {
      UnderHolds(entries[1..], keys, entry);
    }
  }

  lemma {:induction false} MinusHolds(entries: seq<JsonEntry>, keys: seq<string>, entry: JsonEntry)
    ensures entry in Minus(entries, keys) <==> entry in entries && entry.key !in keys
  {
    if entries != [] {
      MinusHolds(entries[1..], keys, entry);
    }
  }

  lemma {:induction false} MinusIsMap(entries: seq<JsonEntry>, keys: seq<string>)
    requires IsMap(entries)
    ensures IsMap(Minus(entries, keys))
  {
    if entries != [] {
      MinusIsMap(entries[1..], keys);
      var left := Minus(entries[1..], keys);
      forall i | 0 <= i < |left| ensures left[i].key != entries[0].key {
        MinusHolds(entries[1..], keys, left[i]);
      }
    }
  }

  lemma {:induction false} UnderIsMap(entries: seq<JsonEntry>, keys: seq<string>)
    requires IsMap(entries)
    ensures IsMap(Under(entries, keys))
  {
    if entries != [] {
      UnderIsMap(entries[1..], keys);
      var held := Under(entries[1..], keys);
      forall i | 0 <= i < |held| ensures held[i].key != entries[0].key {
        UnderHolds(entries[1..], keys, held[i]);
      }
    }
  }

  /** Two lists of keys that agree on what the object holds leave the same. */
  lemma {:induction false} MinusAgrees(entries: seq<JsonEntry>, a: seq<string>, b: seq<string>)
    requires forall entry :: entry in entries ==> (entry.key in a <==> entry.key in b)
    ensures Minus(entries, a) == Minus(entries, b)
  {
    if entries != [] {
      MinusAgrees(entries[1..], a, b);
    }
  }

  lemma {:induction false} MinusNothing(entries: seq<JsonEntry>, keys: seq<string>)
    requires forall entry :: entry in entries ==> entry.key !in keys
    ensures Minus(entries, keys) == entries
  {
    if entries != [] {
      MinusNothing(entries[1..], keys);
    }
  }

  lemma {:induction false} MinusBoth(entries: seq<JsonEntry>, a: seq<string>, b: seq<string>)
    ensures Minus(Minus(entries, a), b) == Minus(entries, a + b)
  {
    if entries != [] {
      MinusBoth(entries[1..], a, b);
    }
  }

  /** Taking a map's key away is leaving out what it held under it. */
  lemma {:induction false} RemovedIsMinus(entries: seq<JsonEntry>, key: string)
    requires IsMap(entries)
    ensures Removed(entries, key) == Minus(entries, [key])
  {
    if entries != [] {
      if entries[0].key == key {
        MinusNothing(entries[1..], [key]);
      } else {
        RemovedIsMinus(entries[1..], key);
      }
    }
  }
}
