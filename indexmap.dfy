// The `indexmap::IndexMap` type the repository keys its sections, symbols and
// relocations with: a map that remembers insertion order, where inserting an
// existing key replaces its value in place and `get_index` selects by position.
module IndexMaps {
  import opened Wrappers

  /** Position of the first entry whose key is `k`. */
  function FindKey<K(==), V>(es: seq<(K, V)>, k: K): (r: Option<nat>)
    ensures r.Some? ==> r.value < |es| && es[r.value].0 == k
    ensures r.Some? ==> forall j :: 0 <= j < r.value ==> es[j].0 != k
    ensures r.None? ==> forall j :: 0 <= j < |es| ==> es[j].0 != k
  {
    if |es| == 0 then None
    else if es[0].0 == k then Some(0)
    else
      match FindKey(es[1..], k)
      case None => None
      case Some(i) => Some(i + 1)
  }

  /** `FindKey` looks only at the keys. */
  lemma SameKeysSameFind<K, V>(a: seq<(K, V)>, b: seq<(K, V)>, k: K)
    requires |a| == |b| && forall i :: 0 <= i < |a| ==> a[i].0 == b[i].0
    ensures FindKey(a, k) == FindKey(b, k)
  {
  }

  /** Appending an entry with another key does not move the first match. */
  lemma FindKeyAppend<K, V>(es: seq<(K, V)>, e: (K, V), k: K)
    requires e.0 != k
    ensures FindKey(es + [e], k) == FindKey(es, k)
  {
    var a, b := FindKey(es + [e], k), FindKey(es, k);
    if a.Some? { assert (es + [e])[a.value] == es[a.value]; }
    if b.Some? { assert (es + [e])[b.value] == es[b.value]; }
  }

  datatype IndexMap<K(==,!new), V> = IndexMap(entries: seq<(K, V)>)
  {
    /** No key occurs twice, as in every map built by `Insert`. */
    ghost predicate Valid() {
      forall i, j :: 0 <= i < j < |entries| ==> entries[i].0 != entries[j].0
    }

    function Len(): nat { |entries| }

    function Keys(): (r: seq<K>)
      ensures |r| == |entries| && forall i :: 0 <= i < |r| ==> r[i] == entries[i].0
    {
      seq(|entries|, i requires 0 <= i < |entries| => entries[i].0)
    }

    function Values(): (r: seq<V>)
      ensures |r| == |entries| && forall i :: 0 <= i < |r| ==> r[i] == entries[i].1
    {
      seq(|entries|, i requires 0 <= i < |entries| => entries[i].1)
    }

    predicate ContainsKey(k: K) { FindKey(entries, k).Some? }

    function Get(k: K): (r: Option<V>)
      ensures r.Some? <==> k in Keys()
      ensures r.Some? ==> exists i :: 0 <= i < |entries| && entries[i] == (k, r.value)
    {
      match FindKey(entries, k)
      case None => None
      case Some(i) => Some(entries[i].1)
    }

    /** `get_index`: the entry at insertion position `i`. */
    function GetIndex(i: nat): (r: Option<(K, V)>)
      ensures r.Some? <==> i < |entries|
      ensures r.Some? ==> r.value == entries[i]
    {
      if i < |entries| then Some(entries[i]) else None
    }

    /** `insert`: a new key goes to the end; an existing key keeps its
        position and gets the new value. */
    function Insert(k: K, v: V): (r: IndexMap<K, V>)
      ensures r.Get(k) == Some(v)
      ensures forall k' :: k' != k ==> r.Get(k') == Get(k')
      ensures k in Keys() ==> r.Keys() == Keys()
      ensures k !in Keys() ==> r.Keys() == Keys() + [k]
      ensures Valid() ==> r.Valid()
    {
      match FindKey(entries, k)
      case Some(i) =>
        var r := IndexMap(entries[i := (k, v)]);
        assert r.Keys() == Keys();
        assert forall k' :: k' != k ==> r.Get(k') == Get(k') by {
          forall k' | k' != k ensures r.Get(k') == Get(k') {
            SameKeysSameFind(r.entries, entries, k');
          }
        }
        r
      case None =>
        var r := IndexMap(entries + [(k, v)]);
        assert r.Keys() == Keys() + [k];
        assert forall k' :: k' != k ==> r.Get(k') == Get(k') by {
          forall k' | k' != k ensures r.Get(k') == Get(k') {
            FindKeyAppend(entries, (k, v), k');
          }
        }
        r
    }
  }

  function Empty<K(==,!new), V>(): (r: IndexMap<K, V>)
    ensures r.Len() == 0 && r.Valid()
  {
    IndexMap([])
  }
}
