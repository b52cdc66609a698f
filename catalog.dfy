/**
 * The contract's `UnorderedMap<String, Product>`: a map from product id to
 * product, together with the order its values are listed in. The storage
 * map keeps its keys in a vector; inserting a new key appends it, inserting
 * an existing key replaces the value where it is. The contract never
 * removes a key, so the order is that of first insertion.
 */
module Catalog {
  import opened Products

  datatype Catalog = Catalog(entries: map<string, Product>, keys: seq<string>)

  const Empty := Catalog(map[], [])

  predicate Distinct(s: seq<string>) {
    forall i, j :: 0 <= i < j < |s| ==> s[i] != s[j]
  }

  /** The key vector lists every key of the map once and nothing else. */
  ghost predicate Valid(c: Catalog) {
    && Distinct(c.keys)
    && (forall k :: k in c.entries <==> k in c.keys)
  }

  /**
   * `insert`: the map gains or replaces the entry at `key`; a new key goes
   * to the end of the iteration order, an existing one keeps its place.
   */
  function Insert(c: Catalog, key: string, value: Product): (r: Catalog)
    ensures Valid(c) ==> Valid(r)
    ensures r.entries == c.entries[key := value]
    ensures key in c.entries ==> r.keys == c.keys
    ensures key !in c.entries ==> r.keys == c.keys + [key]
  {
    if key in c.entries then Catalog(c.entries[key := value], c.keys)
    else Catalog(c.entries[key := value], c.keys + [key])
  }

  /** The values at the given keys, in their order. */
  function ValuesAt(entries: map<string, Product>, keys: seq<string>): (r: seq<Product>)
    requires forall k :: k in keys ==> k in entries
    ensures |r| == |keys|
    ensures forall i :: 0 <= i < |keys| ==> r[i] == entries[keys[i]]
  {
    if keys == [] then [] else [entries[keys[0]]] + ValuesAt(entries, keys[1..])
  }

  /** A sequence without repeats has as many elements as its set. */
  lemma {:induction false} DistinctCard(s: seq<string>)
    requires Distinct(s)
    ensures |set x | x in s| == |s|
  {
    if s != [] {
      var rest := s[1..];
      assert Distinct(rest) by {
        forall i, j | 0 <= i < j < |rest| ensures rest[i] != rest[j] {
          assert rest[i] == s[i + 1] && rest[j] == s[j + 1];
        }
      }
      DistinctCard(rest);
      assert s[0] !in rest by {
        forall i | 0 <= i < |rest| ensures rest[i] != s[0] {
          assert rest[i] == s[i + 1];
        }
      }
      assert (set x | x in s) == {s[0]} + (set x | x in rest) by {
        assert s == [s[0]] + rest;
      }
    }
  }

  /** A valid catalog lists as many keys as its map has entries. */
  lemma KeyCount(c: Catalog)
    requires Valid(c)
    ensures |c.keys| == |c.entries|
  {
    assert c.entries.Keys == set x | x in c.keys;
    DistinctCard(c.keys);
  }

  /** Every stored product sits at some position of the key vector. */
  lemma StoredIsListed(c: Catalog, p: Product)
    requires Valid(c) && p in c.entries.Values
    ensures exists i :: 0 <= i < |c.keys| && c.entries[c.keys[i]] == p
  {
    var k :| k in c.entries && c.entries[k] == p;
    var i :| 0 <= i < |c.keys| && c.keys[i] == k;
  }

  /**
   * `values_as_vector().to_vec()`: every stored product once, one per key,
   * in iteration order.
   */
  function Values(c: Catalog): (r: seq<Product>)
    requires Valid(c)
    ensures |r| == |c.keys| == |c.entries|
    ensures forall i :: 0 <= i < |r| ==> r[i] == c.entries[c.keys[i]]
    ensures forall p :: p in r <==> p in c.entries.Values
  {
    KeyCount(c);
    var r := ValuesAt(c.entries, c.keys);
    assert forall p :: p in c.entries.Values ==> p in r by {
      forall p | p in c.entries.Values ensures p in r {
        StoredIsListed(c, p);
      }
    }
    r
  }
}
