/**
 * A JavaScript `Map` as its entries in insertion order: setting a key that is
 * present replaces its value where it stands, setting a new key appends it.
 * Iterating the map (`Array.from(map)`) yields exactly these entries.
 */
module JsMap {
  import opened Wrappers

  type Entries<K, V> = seq<(K, V)>

  /** No key occurs twice. */
  predicate UniqueKeys<K(==), V>(entries: Entries<K, V>)
  {
    forall i, j :: 0 <= i < j < |entries| ==> entries[i].0 != entries[j].0
  }

  /** The keys, in iteration order. */
  function Keys<K, V>(entries: Entries<K, V>): (r: seq<K>)
    ensures |r| == |entries| && forall i :: 0 <= i < |r| ==> r[i] == entries[i].0
  {
    if entries == [] then [] else [entries[0].0] + Keys(entries[1..])
  }

  /** `map.get(key)`; a missing key is `undefined`. */
  function Get<K(==), V>(entries: Entries<K, V>, key: K): (r: Option<V>)
    ensures r.None? <==> key !in Keys(entries)
    ensures r.Some? ==> exists i :: 0 <= i < |entries| && entries[i].0 == key && entries[i].1 == r.value
  {
    if entries == [] then None
    else if entries[0].0 == key then Some(entries[0].1)
    else Get(entries[1..], key)
  }

  /** `map.set(key, value)`. */
  function Set<K(==), V>(entries: Entries<K, V>, key: K, value: V): (r: Entries<K, V>)
    ensures key in Keys(entries) ==> Keys(r) == Keys(entries)
    ensures key !in Keys(entries) ==> Keys(r) == Keys(entries) + [key]
  {
    if entries == [] then [(key, value)]
    else if entries[0].0 == key then [(key, value)] + entries[1..]
    else [entries[0]] + Set(entries[1..], key, value)
  }

  /** `new Map(iterable)`: every pair set in turn. */
  function FromPairs<K(==), V>(pairs: seq<(K, V)>): (r: Entries<K, V>)
  {
    if pairs == [] then [] else Set(FromPairs(pairs[..|pairs| - 1]), pairs[|pairs| - 1].0, pairs[|pairs| - 1].1)
  }

  /** Setting keeps the keys unique. */
  lemma {:induction false} SetUnique<K, V>(entries: Entries<K, V>, key: K, value: V)
    requires UniqueKeys(entries)
    ensures UniqueKeys(Set(entries, key, value))
  {
    var r := Set(entries, key, value);
    forall i, j | 0 <= i < j < |r|
      ensures r[i].0 != r[j].0
    {
      assert Keys(r)[i] == r[i].0 && Keys(r)[j] == r[j].0;
      if key !in Keys(entries) && j == |entries| {
        assert Keys(entries)[i] == entries[i].0;
      } else {
        assert Keys(entries)[i] == entries[i].0 && Keys(entries)[j] == entries[j].0;
      }
    }
  }

  /** After setting, the key maps to the value and every other key to what it did before. */
  lemma {:induction false} SetGet<K, V>(entries: Entries<K, V>, key: K, value: V, other: K)
    ensures Get(Set(entries, key, value), key) == Some(value)
    ensures other != key ==> Get(Set(entries, key, value), other) == Get(entries, other)
    decreases |entries|
  {
    if entries != [] {
      SetGet(entries[1..], key, value, other);
    }
  }

  /** A map built from pairs has unique keys. */
  lemma {:induction false} FromPairsUnique<K, V>(pairs: seq<(K, V)>)
    ensures UniqueKeys(FromPairs(pairs))
    decreases |pairs|
  {
    if pairs != [] {
      FromPairsUnique(pairs[..|pairs| - 1]);
      SetUnique(FromPairs(pairs[..|pairs| - 1]), pairs[|pairs| - 1].0, pairs[|pairs| - 1].1);
    }
  }

  /** Setting a key that is not present appends it. */
  lemma {:induction false} SetNew<K, V>(entries: Entries<K, V>, key: K, value: V)
    requires key !in Keys(entries)
    ensures Set(entries, key, value) == entries + [(key, value)]
    decreases |entries|
  {
    if entries != [] {
      SetNew(entries[1..], key, value);
      assert entries == [entries[0]] + entries[1..];
    }
  }

  /**
   * `new Map(Array.from(map))` rebuilds `map`: the entries, as the pair list
   * that serialising gives, set in turn, are the entries again.
   */
  lemma {:induction false} FromPairsRoundTrip<K, V>(entries: Entries<K, V>)
    requires UniqueKeys(entries)
    ensures FromPairs(entries) == entries
    decreases |entries|
  {
    if entries != [] {
      var init := entries[..|entries| - 1];
      var last := entries[|entries| - 1];
      FromPairsRoundTrip(init);
      forall i | 0 <= i < |init|
        ensures Keys(init)[i] != last.0
      {
        assert entries[i].0 != entries[|entries| - 1].0;
      }
      SetNew(init, last.0, last.1);
      assert init + [last] == entries;
    }
  }

  /** Every entry after setting is an old entry or the new pair. */
  lemma {:induction false} SetElements<K, V>(entries: Entries<K, V>, key: K, value: V)
    ensures forall p :: p in Set(entries, key, value) ==> p in entries || p == (key, value)
    decreases |entries|
  {
    if entries != [] && entries[0].0 != key {
      SetElements(entries[1..], key, value);
    }
  }

  /** Looking up in a map with one more entry at its end. */
  lemma {:induction false} GetAppend<K, V>(entries: Entries<K, V>, k: K, v: V, key: K)
    ensures Get(entries + [(k, v)], key)
         == if key in Keys(entries) then Get(entries, key) else if key == k then Some(v) else None
    decreases |entries|
  {
    if entries != [] {
      assert (entries + [(k, v)])[1..] == entries[1..] + [(k, v)];
      assert Keys(entries)[0] == entries[0].0;
      assert key in Keys(entries) <==> key == entries[0].0 || key in Keys(entries[1..]);
      GetAppend(entries[1..], k, v, key);
    }
  }

  /** Looking up in a map with distinct keys, by its last entry. */
  lemma GetLast<K, V>(entries: Entries<K, V>, key: K)
    requires UniqueKeys(entries) && entries != []
    ensures var last := entries[|entries| - 1];
      Get(entries, key) == if key == last.0 then Some(last.1) else Get(entries[..|entries| - 1], key)
  {
    var init, last := entries[..|entries| - 1], entries[|entries| - 1];
    assert entries == init + [last];
    GetAppend(init, last.0, last.1, key);
    if key == last.0 {
      forall i | 0 <= i < |init|
        ensures Keys(init)[i] != last.0
      {
        assert entries[i].0 != entries[|entries| - 1].0;
      }
    }
  }
}
