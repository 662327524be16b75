/** A bounded cache that forgets its least recently used entry. The newest entry comes last. */
module LruCache {
  import opened Wrappers

  datatype Entry<K, V> = Entry(key: K, answer: V)

  function Find<K(==,!new), V(!new)>(entries: seq<Entry<K, V>>, key: K): (r: Option<V>)
    ensures r.Some? ==> Entry(key, r.value) in entries
    ensures r.None? <==> forall e :: e in entries ==> e.key != key
  {
    if entries == [] then None
    else if entries[0].key == key then Some(entries[0].answer)
    else Find(entries[1..], key)
  }

  function Without<K(==,!new), V(!new)>(entries: seq<Entry<K, V>>, key: K): (r: seq<Entry<K, V>>)
    ensures |r| <= |entries| && forall e :: e in r <==> e in entries && e.key != key
    ensures (exists e :: e in entries && e.key == key) ==> |r| < |entries|
  {
    if entries == [] then []
    else (if entries[0].key == key then [] else [entries[0]]) + Without(entries[1..], key)
  }

  /** A hit makes its entry the newest. */
  function Touched<K(==,!new), V(!new)>(entries: seq<Entry<K, V>>, key: K, answer: V): (r: seq<Entry<K, V>>)
    requires Entry(key, answer) in entries
    ensures r != [] && |r| <= |entries| && r[|r| - 1] == Entry(key, answer)
    ensures forall e :: e in r <==> e == Entry(key, answer) || (e in entries && e.key != key)
  {
    Without(entries, key) + [Entry(key, answer)]
  }

  /** A miss adds its entry and drops the oldest one when the cache is full. */
  function Stored<K(==,!new), V(!new)>(entries: seq<Entry<K, V>>, key: K, answer: V, size: nat): (r: seq<Entry<K, V>>)
    requires 0 < size && |entries| <= size
    ensures |r| <= size && Entry(key, answer) in r
    ensures forall e :: e in r ==> e == Entry(key, answer) || e in entries
    ensures r[|r| - 1] == Entry(key, answer) && forall i :: 0 < i < |entries| ==> entries[i] in r
    ensures |entries| < size ==> forall e :: e in entries ==> e in r
  {
    (if |entries| == size then entries[1..] else entries) + [Entry(key, answer)]
  }
}
