/**
 Whole runs of the cache: the calls one cache receives, the unbounded timed map they describe,
 and what a bounded cache may forget.
 */
module CacheRuns {
  import opened Sets
  import opened Options
  import opened MemoryCaches

  datatype Op<K, V> =
    | Get(key: K)
    | Set(key: K, value: V, ttlSeconds: Option<int>)
    | Delete(key: K)
    | Clear

  datatype Call<K, V> = Call(op: Op<K, V>, at: real)

  /** What a cache is built with. */
  datatype Config = Config(defaultTtl: int, maxEntries: nat)

  function NewEntry<K, V>(defaultTtl: int, key: K, value: V, ttlSeconds: Option<int>, at: real): Entry<K, V> {
    Entry(key, Deadline(if ttlSeconds.None? then defaultTtl else ttlSeconds.value, at), value)
  }

  function Apply<K(==), V>(c: Config, s: seq<Entry<K, V>>, call: Call<K, V>): seq<Entry<K, V>> {
    match call.op
    case Get(key) => AfterGet(s, key, call.at).1
    case Set(key, value, ttl) => AfterSet(s, NewEntry(c.defaultTtl, key, value, ttl, call.at), c.maxEntries)
    case Delete(key) => Without(s, key)
    case Clear => []
  }

  /** The store after a run of calls on a new cache. */
  function Run<K(==), V>(c: Config, calls: seq<Call<K, V>>): seq<Entry<K, V>> {
    if calls == [] then [] else Apply(c, Run(c, calls[..|calls| - 1]), calls[|calls| - 1])
  }

  lemma {:induction false} RunKeepsStore<K, V>(c: Config, calls: seq<Call<K, V>>)
    ensures Distinct(Run(c, calls)) && |Run(c, calls)| <= c.maxEntries
  {
    if calls != [] {
      var last := calls[|calls| - 1];
      var before := Run(c, calls[..|calls| - 1]);
      RunKeepsStore(c, calls[..|calls| - 1]);
      match last.op
      case Get(key) => GetKeepsStore(before, key, last.at);
      case Set(key, value, ttl) =>
        SetKeepsStore(before, NewEntry(c.defaultTtl, key, value, ttl, last.at), c.maxEntries);
      case Delete(key) => WithoutDistinct(before, key);
      case Clear =>
    }
  }

  // ----- The unbounded timed map -----

  /** The latest set of each key that no later delete or clear undid. Reads do not matter. */
  function Timed<K(==), V>(defaultTtl: int, calls: seq<Call<K, V>>): map<K, Entry<K, V>> {
    if calls == [] then map[]
    else
      var m := Timed(defaultTtl, calls[..|calls| - 1]);
      var last := calls[|calls| - 1];
      match last.op
      case Get(_) => m
      case Set(key, value, ttl) => m[key := NewEntry(defaultTtl, key, value, ttl, last.at)]
      case Delete(key) => m - {key}
      case Clear => map[]
  }

  /** What the unbounded map answers to a read of `key` at `now`. */
  function Answer<K(==), V>(m: map<K, Entry<K, V>>, key: K, now: real): Option<V> {
    if key in m && !Expired(m[key].expires, now) then Some(m[key].value) else None
  }

  // ----- Use -----

  /** The key this call marks as most recently used: a set key, or a read key that hit. */
  function UsedBy<K(==), V>(s: seq<Entry<K, V>>, call: Call<K, V>): set<K> {
    match call.op
    case Get(key) => if AfterGet(s, key, call.at).0.Some? then {key} else {}
    case Set(key, _, _) => {key}
    case Delete(_) => {}
    case Clear => {}
  }

  /** The other keys set or hit since `key` was last set or hit. */
  function UsedSince<K(==), V>(c: Config, calls: seq<Call<K, V>>, key: K): (r: set<K>)
    ensures key !in r
  {
    if calls == [] then {}
    else
      var before := calls[..|calls| - 1];
      var used := UsedBy(Run(c, before), calls[|calls| - 1]);
      if key in used then {} else UsedSince(c, before, key) + used
  }

  ghost predicate ClockNeverGoesBack<K, V>(calls: seq<Call<K, V>>) {
    forall i, j :: 0 <= i < j < |calls| ==> calls[i].at <= calls[j].at
  }

  // ----- The keys behind an entry in the recency order -----

  function KeySet<K(==), V>(s: seq<Entry<K, V>>): (r: set<K>)
    ensures forall e :: e in s ==> e.key in r
    ensures forall k :: k in r ==> Lookup(s, k).Some?
  {
    if s == [] then {} else {s[0].key} + KeySet(s[1..])
  }

  function Behind<K(==), V>(s: seq<Entry<K, V>>, key: K): set<K> {
    if s == [] then {}
    else if s[0].key == key then KeySet(s[1..])
    else Behind(s[1..], key)
  }

  lemma {:induction false} KeySetSize<K, V>(s: seq<Entry<K, V>>)
    requires Distinct(s)
    ensures |KeySet(s)| == |s|
  {
    if s != [] {
      KeySetSize(s[1..]);
    }
  }

  lemma {:induction false} KeySetWithout<K, V>(s: seq<Entry<K, V>>, key: K)
    ensures KeySet(Without(s, key)) <= KeySet(s)
  {
    if s != [] {
      KeySetWithout(s[1..], key);
    }
  }

  lemma {:induction false} KeySetAppend<K, V>(s: seq<Entry<K, V>>, e: Entry<K, V>)
    ensures KeySet(s + [e]) == KeySet(s) + {e.key}
  {
    if s == [] {
      assert s + [e] == [e];
    } else {
      KeySetAppend(s[1..], e);
      assert (s + [e])[1..] == s[1..] + [e];
    }
  }

  lemma {:induction false} BehindWithout<K, V>(s: seq<Entry<K, V>>, key: K, other: K)
    requires key != other
    ensures Behind(Without(s, other), key) <= Behind(s, key)
    ensures Lookup(Without(s, other), key) == Lookup(s, key)
  {
    if s != [] && s[0].key != other {
      BehindWithout(s[1..], key, other);
      KeySetWithout(s[1..], other);
    }
  }

  lemma {:induction false} AppendAtEnd<K, V>(s: seq<Entry<K, V>>, key: K, e: Entry<K, V>)
    requires key != e.key
    ensures Behind(s + [e], key) <= Behind(s, key) + {e.key}
    ensures Lookup(s + [e], key) == Lookup(s, key)
  {
    if s == [] {
      assert s + [e] == [e];
    } else {
      assert (s + [e])[1..] == s[1..] + [e];
      KeySetAppend(s[1..], e);
      AppendAtEnd(s[1..], key, e);
    }
  }

  lemma {:induction false} LastHasNoneBehind<K, V>(s: seq<Entry<K, V>>, e: Entry<K, V>)
    requires Lookup(s, e.key).None?
    ensures Behind(s + [e], e.key) == {}
    ensures Lookup(s + [e], e.key) == Some(e)
  {
    if s == [] {
      assert s + [e] == [e];
    } else {
      assert (s + [e])[1..] == s[1..] + [e];
      assert s[0] in s;
      LastHasNoneBehind(s[1..], e);
    }
  }

  // ----- The bounded cache against the map -----

  /** What is true of one key of the map: stored unchanged, or forgotten for a reason. */
  ghost predicate Accounted<K, V>(c: Config, calls: seq<Call<K, V>>, key: K, now: real) {
    var s, m := Run(c, calls), Timed(c.defaultTtl, calls);
    && (Lookup(s, key).Some? ==>
          key in m && m[key] == Lookup(s, key).value && Behind(s, key) <= UsedSince(c, calls, key))
    && (Lookup(s, key).None? && key in m ==>
          Expired(m[key].expires, now) || |UsedSince(c, calls, key)| >= c.maxEntries)
  }

  /** Eviction drops at most one entry, and then every entry that stays was behind it. */
  lemma EvictOne<K, V>(full: seq<Entry<K, V>>, key: K, capacity: nat)
    requires Distinct(full) && |full| <= capacity + 1
    ensures var kept := Evict(full, capacity);
            || (Lookup(kept, key) == Lookup(full, key) && Behind(kept, key) == Behind(full, key))
            || (Lookup(kept, key).None? && |Behind(full, key)| == capacity)
  {
    if |full| > capacity {
      assert Evict(full, capacity) == full[1..];
      KeySetSize(full[1..]);
    }
  }

  lemma SetMovesToEnd<K, V>(s: seq<Entry<K, V>>, key: K, e: Entry<K, V>)
    requires Distinct(s)
    ensures var full := Without(s, e.key) + [e];
            if key == e.key then Lookup(full, key) == Some(e) && Behind(full, key) == {}
            else Lookup(full, key) == Lookup(s, key) && Behind(full, key) <= Behind(s, key) + {e.key}
  {
    WithoutDistinct(s, e.key);
    if key == e.key {
      LastHasNoneBehind(Without(s, key), e);
    } else {
      BehindWithout(s, key, e.key);
      AppendAtEnd(Without(s, e.key), key, e);
    }
  }

  lemma SetAccounted<K, V>(c: Config, calls: seq<Call<K, V>>, key: K)
    requires calls != [] && calls[|calls| - 1].op.Set?
    requires Accounted(c, calls[..|calls| - 1], key, calls[|calls| - 1].at)
    ensures Accounted(c, calls, key, calls[|calls| - 1].at)
  {
    var before, last := calls[..|calls| - 1], calls[|calls| - 1];
    var s := Run(c, before);
    var e := NewEntry(c.defaultTtl, last.op.key, last.op.value, last.op.ttlSeconds, last.at);
    RunKeepsStore(c, before);
    AppendDistinct(s, e);
    SetMovesToEnd(s, key, e);
    var full := Without(s, e.key) + [e];
    EvictOne(full, key, c.maxEntries);
    assert UsedSince(c, calls, key) == if key == e.key then {} else UsedSince(c, before, key) + {e.key};
    SubsetSize(UsedSince(c, before, key), UsedSince(c, before, key) + {e.key});
    if Lookup(full, key).Some? {
      SubsetSize(Behind(full, key), UsedSince(c, calls, key));
    }
  }

  lemma AccountedStep<K, V>(c: Config, calls: seq<Call<K, V>>, key: K)
    requires calls != []
    requires Accounted(c, calls[..|calls| - 1], key, calls[|calls| - 1].at)
    ensures Accounted(c, calls, key, calls[|calls| - 1].at)
  {
    var before, last := calls[..|calls| - 1], calls[|calls| - 1];
    var s := Run(c, before);
    RunKeepsStore(c, before);
    match last.op
    case Get(k) =>
      var found := Lookup(s, k);
      WithoutDistinct(s, k);
      if found.Some? && key != k {
        BehindWithout(s, key, k);
        AppendAtEnd(Without(s, k), key, found.value);
      } else if found.Some? && !Expired(found.value.expires, last.at) {
        LastHasNoneBehind(Without(s, k), found.value);
      }
      if found.None? || Expired(found.value.expires, last.at) || key != k {
        assert UsedSince(c, before, key) <= UsedSince(c, calls, key);
        SubsetSize(UsedSince(c, before, key), UsedSince(c, calls, key));
      }
    case Set(_, _, _) => SetAccounted(c, calls, key);
    case Delete(k) =>
      WithoutDistinct(s, k);
      if key != k {
        BehindWithout(s, key, k);
      }
    case Clear =>
  }

  lemma {:induction false} AlwaysAccounted<K, V>(c: Config, calls: seq<Call<K, V>>, key: K, now: real)
    requires ClockNeverGoesBack(calls)
    requires calls != [] ==> calls[|calls| - 1].at <= now
    ensures Accounted(c, calls, key, now)
  {
    if calls != [] {
      AlwaysAccounted(c, calls[..|calls| - 1], key, calls[|calls| - 1].at);
      AccountedStep(c, calls, key);
    }
  }

  /**
   The bounded cache against the unbounded timed map. A hit is the map's answer, so the value of
   the latest set that nothing undid and that has not expired. A miss is either the map's answer
   too, or the price of the bound: at least `maxEntries` other keys were set or hit since the
   key was last used.
   */
  lemma CacheAgreesWithTimedMap<K, V>(c: Config, calls: seq<Call<K, V>>, key: K, now: real)
    requires ClockNeverGoesBack(calls)
    requires calls != [] ==> calls[|calls| - 1].at <= now
    ensures var hit, answer := AfterGet(Run(c, calls), key, now).0, Answer(Timed(c.defaultTtl, calls), key, now);
            && (hit.Some? ==> hit == answer)
            && (hit.None? ==> answer.None? || |UsedSince(c, calls, key)| >= c.maxEntries)
  {
    AlwaysAccounted(c, calls, key, now);
  }

  // ----- Expiry in numbers -----

  /** Call `i` sets the key, and no later call sets or deletes it or clears the cache. */
  ghost predicate LatestSet<K, V>(calls: seq<Call<K, V>>, i: nat, key: K) {
    && i < |calls| && calls[i].op.Set? && calls[i].op.key == key
    && forall k :: i < k < |calls| ==>
         && !calls[k].op.Clear?
         && !(calls[k].op.Set? && calls[k].op.key == key)
         && !(calls[k].op.Delete? && calls[k].op.key == key)
  }

  /** How many seconds an entry lives: what the call says, or else the default. */
  function Lifetime<K, V>(c: Config, call: Call<K, V>): int
    requires call.op.Set?
  {
    match call.op.ttlSeconds case Some(seconds) => seconds case None => c.defaultTtl
  }

  lemma {:induction false} LatestIsTimed<K, V>(c: Config, calls: seq<Call<K, V>>, i: nat, key: K)
    requires LatestSet(calls, i, key)
    ensures var m, made := Timed(c.defaultTtl, calls), calls[i];
            && key in m && m[key].value == made.op.value
            && m[key].expires
               == if Lifetime(c, made) <= 0 then None else Some(made.at + Lifetime(c, made) as real)
  {
    if i < |calls| - 1 {
      LatestIsTimed(c, calls[..|calls| - 1], i, key);
    }
  }

  /**
   A key set at some time with a lifetime of t seconds, and then neither set again, deleted nor cleared:
   for t > 0 every read t seconds later or more misses; every earlier read, and for t <= 0 every read,
   returns the value, unless at least `maxEntries` other keys were used since the key was last used.
   */
  lemma ReadsRespectLifetimes<K, V>(c: Config, calls: seq<Call<K, V>>, i: nat, key: K, now: real)
    requires ClockNeverGoesBack(calls) && LatestSet(calls, i, key) && calls[|calls| - 1].at <= now
    ensures var t, read := Lifetime(c, calls[i]), AfterGet(Run(c, calls), key, now).0;
            && (t > 0 && now >= calls[i].at + t as real ==> read == None)
            && (t <= 0 || now < calls[i].at + t as real ==>
                  read == Some(calls[i].op.value) || (read == None && |UsedSince(c, calls, key)| >= c.maxEntries))
  {
    LatestIsTimed(c, calls, i, key);
    CacheAgreesWithTimedMap(c, calls, key, now);
  }

  /** A key that was never set, or was deleted or cleared away since, is never found. */
  lemma {:induction false} UnsetKeysMiss<K, V>(c: Config, calls: seq<Call<K, V>>, key: K, now: real)
    requires ClockNeverGoesBack(calls) && (calls != [] ==> calls[|calls| - 1].at <= now)
    requires forall i: nat :: !LatestSet(calls, i, key)
    ensures AfterGet(Run(c, calls), key, now).0 == None
  {
    NeverTimed(c, calls, key);
    CacheAgreesWithTimedMap(c, calls, key, now);
  }

  lemma {:induction false} NeverTimed<K, V>(c: Config, calls: seq<Call<K, V>>, key: K)
    requires forall i: nat :: !LatestSet(calls, i, key)
    ensures key !in Timed(c.defaultTtl, calls)
  {
    if calls != [] {
      var before, last := calls[..|calls| - 1], calls[|calls| - 1];
      if !last.op.Clear? && !(last.op.Delete? && last.op.key == key) {
        assert !LatestSet(calls, |calls| - 1, key);
        forall i: nat ensures !LatestSet(before, i, key) {
          if LatestSet(before, i, key) {
            assert LatestSet(calls, i, key);
          }
        }
        NeverTimed(c, before, key);
      }
    }
  }
}
