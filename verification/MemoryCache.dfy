/**
 The in-process TTL + LRU cache. The ordered dictionary of the source is a sequence of entries
 with distinct keys, least recently used first; the clock is a parameter of each call.
 */
module MemoryCaches {
  import opened Options

  datatype Entry<K, V> = Entry(key: K, expires: Option<real>, value: V)

  predicate Expired(expires: Option<real>, now: real) {
    expires.Some? && now >= expires.value
  }

  ghost predicate Distinct<K, V>(s: seq<Entry<K, V>>) {
    forall i, j :: 0 <= i < j < |s| ==> s[i].key != s[j].key
  }

  function Lookup<K(==), V>(s: seq<Entry<K, V>>, key: K): (r: Option<Entry<K, V>>)
    ensures r.Some? ==> r.value in s && r.value.key == key
    ensures r.None? ==> forall e :: e in s ==> e.key != key
  {
    if s == [] then None
    else if s[0].key == key then Some(s[0])
    else Lookup(s[1..], key)
  }

  /** The store with the entry for `key`, if there is one, taken out. */
  function Without<K(==), V>(s: seq<Entry<K, V>>, key: K): (r: seq<Entry<K, V>>)
    ensures |r| <= |s|
    ensures forall e :: e in r ==> e in s
    ensures Lookup(s, key).None? ==> r == s
  {
    if s == [] then []
    else if s[0].key == key then s[1..]
    else [s[0]] + Without(s[1..], key)
  }

  /** Popping from the least recently used end until at most `capacity` entries are left. */
  function Evict<K, V>(s: seq<Entry<K, V>>, capacity: nat): seq<Entry<K, V>> {
    if |s| > capacity then s[|s| - capacity..] else s
  }

  /** When an entry stored at `now` expires: a ttl of zero or less means never. */
  function Deadline(ttl: int, now: real): Option<real> {
    if ttl <= 0 then None else Some(now + ttl as real)
  }

  function AfterGet<K(==), V>(s: seq<Entry<K, V>>, key: K, now: real): (Option<V>, seq<Entry<K, V>>) {
    match Lookup(s, key)
    case None => (None, s)
    case Some(e) =>
      if Expired(e.expires, now) then (None, Without(s, key))
      else (Some(e.value), Without(s, key) + [e])
  }

  function AfterSet<K(==), V>(s: seq<Entry<K, V>>, e: Entry<K, V>, capacity: nat): seq<Entry<K, V>> {
    Evict(Without(s, e.key) + [e], capacity)
  }

  lemma {:induction false} WithoutDistinct<K, V>(s: seq<Entry<K, V>>, key: K)
    requires Distinct(s)
    ensures Distinct(Without(s, key))
    ensures Lookup(Without(s, key), key).None?
  {
    if s != [] && s[0].key != key {
      WithoutDistinct(s[1..], key);
      forall e | e in Without(s[1..], key) ensures e.key != s[0].key {
        assert e in s[1..];
      }
    }
  }

  lemma AppendDistinct<K, V>(s: seq<Entry<K, V>>, e: Entry<K, V>)
    requires Distinct(s)
    ensures Distinct(Without(s, e.key) + [e])
  {
    WithoutDistinct(s, e.key);
  }

  lemma {:induction false} WithoutShrinks<K, V>(s: seq<Entry<K, V>>, key: K)
    ensures |Without(s, key)| == if Lookup(s, key).Some? then |s| - 1 else |s|
  {
    if s != [] && s[0].key != key {
      WithoutShrinks(s[1..], key);
    }
  }

  lemma GetKeepsStore<K, V>(s: seq<Entry<K, V>>, key: K, now: real)
    requires Distinct(s)
    ensures Distinct(AfterGet(s, key, now).1) && |AfterGet(s, key, now).1| <= |s|
  {
    WithoutDistinct(s, key);
    WithoutShrinks(s, key);
  }

  lemma SetKeepsStore<K, V>(s: seq<Entry<K, V>>, e: Entry<K, V>, capacity: nat)
    requires Distinct(s)
    ensures Distinct(AfterSet(s, e, capacity)) && |AfterSet(s, e, capacity)| <= capacity
  {
    AppendDistinct(s, e);
  }

  class MemoryCache<K(==), V> {
    const defaultTtl: int
    const maxEntries: nat
    var store: seq<Entry<K, V>>

    ghost predicate Valid()
      reads this
    {
      Distinct(store) && |store| <= maxEntries
    }

    constructor (defaultTtl: int, maxEntries: nat)
      ensures Valid() && store == []
      ensures this.defaultTtl == defaultTtl && this.maxEntries == maxEntries
    {
      this.defaultTtl := defaultTtl;
      this.maxEntries := maxEntries;
      store := [];
    }

    method Get(key: K, now: real) returns (hit: Option<V>)
      requires Valid()
      modifies this
      ensures Valid()
      ensures (hit, store) == AfterGet(old(store), key, now)
    {
      hit := None;
      var item := Lookup(store, key);
      WithoutDistinct(store, key);
      WithoutShrinks(store, key);
      if item.Some? {
        store := Without(store, key);
        if !Expired(item.value.expires, now) {
          store := store + [item.value];
          hit := Some(item.value.value);
        }
      }
    }

    method Set(key: K, value: V, ttlSeconds: Option<int>, now: real)
      requires Valid()
      modifies this
      ensures Valid()
      ensures store == AfterSet(old(store),
                                Entry(key, Deadline(if ttlSeconds.None? then defaultTtl else ttlSeconds.value, now),
                                      value),
                                maxEntries)
    {
      var ttl := match ttlSeconds case None => defaultTtl case Some(t) => t;
      var entry := Entry(key, Deadline(ttl, now), value);
      AppendDistinct(store, entry);
      store := Without(store, key) + [entry];
      ghost var full := store;
      ghost var popped := 0;
      while |store| > maxEntries
        invariant 0 <= popped <= |full| && store == full[popped..]
        invariant popped > 0 ==> |store| >= maxEntries
      {
        store := store[1..];
        popped := popped + 1;
      }
    }

    method Delete(key: K)
      requires Valid()
      modifies this
      ensures Valid()
      ensures store == Without(old(store), key)
      ensures Lookup(store, key).None?
    {
      WithoutDistinct(store, key);
      store := Without(store, key);
    }

    method Clear()
      modifies this
      ensures Valid() && store == []
    {
      store := [];
    }
  }
}
