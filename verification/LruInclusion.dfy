/**
 The inclusion property of LRU eviction: on the same calls a bigger cache holds everything a
 smaller one holds, in the same recency order, with no more extra entries than it has extra room.
 */
module LruInclusion {
  import opened Options
  import opened MemoryCaches
  import opened CacheRuns

  /** `s` is `b`, or `b` with one entry left out. */
  ghost predicate OneExtra<K, V>(s: seq<Entry<K, V>>, b: seq<Entry<K, V>>) {
    || s == b
    || (b != [] && (s == b[1..] || (s != [] && s[0] == b[0] && OneExtra(s[1..], b[1..]))))
  }

  /** `s` is what is left of `b` after leaving some entries out. */
  ghost predicate Subsequence<K, V>(s: seq<Entry<K, V>>, b: seq<Entry<K, V>>) {
    || s == []
    || (b != [] && ((s[0] == b[0] && Subsequence(s[1..], b[1..])) || Subsequence(s, b[1..])))
  }

  lemma {:induction false} OneExtraSize<K, V>(s: seq<Entry<K, V>>, b: seq<Entry<K, V>>)
    requires OneExtra(s, b)
    ensures |s| == |b| ==> s == b
    ensures |s| <= |b| <= |s| + 1
  {
    if s != b && s != b[1..] {
      OneExtraSize(s[1..], b[1..]);
    }
  }

  lemma {:induction false} OneExtraAppend<K, V>(s: seq<Entry<K, V>>, b: seq<Entry<K, V>>, e: Entry<K, V>)
    requires OneExtra(s, b)
    ensures OneExtra(s + [e], b + [e])
  {
    if s != b {
      assert (b + [e])[1..] == b[1..] + [e];
      if s != b[1..] {
        assert (s + [e])[1..] == s[1..] + [e];
        OneExtraAppend(s[1..], b[1..], e);
      }
    }
  }

  lemma {:induction false} OneExtraAtEnd<K, V>(s: seq<Entry<K, V>>, e: Entry<K, V>)
    ensures OneExtra(s, s + [e])
  {
    if s == [] {
      assert (s + [e])[1..] == s;
    } else {
      assert (s + [e])[1..] == s[1..] + [e];
      OneExtraAtEnd(s[1..], e);
    }
  }

  lemma OneExtraPrepend<K, V>(h: Entry<K, V>, s: seq<Entry<K, V>>, b: seq<Entry<K, V>>)
    requires OneExtra(s, b)
    ensures OneExtra([h] + s, [h] + b)
  {
    assert ([h] + s)[1..] == s && ([h] + b)[1..] == b;
  }

  lemma HeadKeyIsUnique<K, V>(b: seq<Entry<K, V>>)
    requires b != [] && Distinct(b)
    ensures Lookup(b[1..], b[0].key).None?
  {
    assert forall e :: e in b[1..] ==> e.key != b[0].key;
  }

  lemma {:induction false} OneExtraLookup<K, V>(s: seq<Entry<K, V>>, b: seq<Entry<K, V>>, key: K)
    requires OneExtra(s, b) && Distinct(b)
    ensures Lookup(s, key).Some? ==> Lookup(s, key) == Lookup(b, key)
  {
    if b != [] {
      HeadKeyIsUnique(b);
      if s != b && s != b[1..] {
        OneExtraLookup(s[1..], b[1..], key);
      }
    }
  }

  /** Taking a key out of both. */
  lemma {:induction false} OneExtraWithout<K, V>(s: seq<Entry<K, V>>, b: seq<Entry<K, V>>, key: K)
    requires OneExtra(s, b) && Distinct(b)
    ensures Lookup(s, key).None? && Lookup(b, key).Some? ==> s == Without(b, key)
    ensures OneExtra(Without(s, key), Without(b, key))
  {
    if s == b {
    } else if s == b[1..] {
      HeadKeyIsUnique(b);
      if b[0].key == key {
        assert Without(s, key) == s == Without(b, key);
      } else {
        assert Without(b, key) == [b[0]] + Without(s, key);
        assert Without(b, key)[1..] == Without(s, key);
      }
    } else {
      OneExtraWithout(s[1..], b[1..], key);
      if s[0].key != key {
        assert Without(s, key) == [s[0]] + Without(s[1..], key);
        assert Without(b, key) == [s[0]] + Without(b[1..], key);
        OneExtraPrepend(s[0], Without(s[1..], key), Without(b[1..], key));
      }
    }
  }

  lemma OneExtraEvict<K, V>(s: seq<Entry<K, V>>, b: seq<Entry<K, V>>, capacity: nat)
    requires OneExtra(s, b) && |s| <= capacity + 1 && |b| <= capacity + 2
    ensures OneExtra(Evict(s, capacity), Evict(b, capacity + 1))
  {
    OneExtraSize(s, b);
    if |b| == capacity + 2 {
      assert Evict(s, capacity) == s[1..] && Evict(b, capacity + 1) == b[1..];
    } else if |s| == capacity + 1 {
      assert Evict(s, capacity) == s[1..];
    }
  }

  lemma OneExtraStep<K, V>(c: Config, s: seq<Entry<K, V>>, b: seq<Entry<K, V>>, call: Call<K, V>)
    requires OneExtra(s, b) && Distinct(b)
    requires |s| <= c.maxEntries && |b| <= c.maxEntries + 1
    ensures OneExtra(Apply(c, s, call), Apply(c.(maxEntries := c.maxEntries + 1), b, call))
  {
    match call.op
    case Get(key) =>
      OneExtraWithout(s, b, key);
      OneExtraLookup(s, b, key);
      if Lookup(s, key).Some? {
        OneExtraAppend(Without(s, key), Without(b, key), Lookup(b, key).value);
      } else if Lookup(b, key).Some? {
        OneExtraAtEnd(s, Lookup(b, key).value);
      }
    case Set(key, value, ttl) =>
      var e := NewEntry(c.defaultTtl, key, value, ttl, call.at);
      OneExtraWithout(s, b, key);
      OneExtraAppend(Without(s, key), Without(b, key), e);
      OneExtraEvict(Without(s, key) + [e], Without(b, key) + [e], c.maxEntries);
    case Delete(key) => OneExtraWithout(s, b, key);
    case Clear =>
  }

  /** One more slot means at most one more entry, whatever the calls. */
  lemma {:induction false} OneMoreSlot<K, V>(c: Config, calls: seq<Call<K, V>>)
    ensures OneExtra(Run(c, calls), Run(c.(maxEntries := c.maxEntries + 1), calls))
  {
    if calls != [] {
      var before := calls[..|calls| - 1];
      OneMoreSlot(c, before);
      RunKeepsStore(c, before);
      RunKeepsStore(c.(maxEntries := c.maxEntries + 1), before);
      OneExtraStep(c, Run(c, before), Run(c.(maxEntries := c.maxEntries + 1), before), calls[|calls| - 1]);
    }
  }

  lemma {:induction false} SubsequenceReflexive<K, V>(s: seq<Entry<K, V>>)
    ensures Subsequence(s, s)
  {
    if s != [] {
      SubsequenceReflexive(s[1..]);
    }
  }

  lemma {:induction false} SubsequenceThenOneExtra<K, V>(a: seq<Entry<K, V>>, s: seq<Entry<K, V>>, b: seq<Entry<K, V>>)
    requires Subsequence(a, s) && OneExtra(s, b)
    ensures Subsequence(a, b)
    decreases |b|
  {
    if a != [] && s != b && s != b[1..] {
      if a[0] == s[0] && Subsequence(a[1..], s[1..]) {
        SubsequenceThenOneExtra(a[1..], s[1..], b[1..]);
      } else {
        SubsequenceThenOneExtra(a, s[1..], b[1..]);
      }
    }
  }

  lemma {:induction false} SubsequenceMember<K, V>(a: seq<Entry<K, V>>, b: seq<Entry<K, V>>, e: Entry<K, V>)
    requires Subsequence(a, b) && e in a
    ensures e in b
  {
    if b != [] && !(a[0] == b[0] && Subsequence(a[1..], b[1..])) {
      SubsequenceMember(a, b[1..], e);
    } else if e != a[0] {
      assert e in a[1..];
      SubsequenceMember(a[1..], b[1..], e);
    }
  }

  lemma {:induction false} LookupMember<K, V>(s: seq<Entry<K, V>>, e: Entry<K, V>)
    requires Distinct(s) && e in s
    ensures Lookup(s, e.key) == Some(e)
  {
    if s[0] != e {
      assert e in s[1..];
      LookupMember(s[1..], e);
    }
  }

  /**
   For any calls at any times, a cache with room for `small` entries holds a recency-ordered part
   of what a cache with room for `big` holds, short of at most `big - small` entries.
   */
  lemma {:induction false} SmallerCacheIsIncluded<K, V>(defaultTtl: int, small: nat, big: nat, calls: seq<Call<K, V>>)
    requires small <= big
    ensures var s, b := Run(Config(defaultTtl, small), calls), Run(Config(defaultTtl, big), calls);
            Subsequence(s, b) && |b| <= |s| + (big - small)
    decreases big - small
  {
    if small == big {
      SubsequenceReflexive(Run(Config(defaultTtl, small), calls));
    } else {
      SmallerCacheIsIncluded(defaultTtl, small, big - 1, calls);
      OneMoreSlot(Config(defaultTtl, big - 1), calls);
      var s := Run(Config(defaultTtl, small), calls);
      var m := Run(Config(defaultTtl, big - 1), calls);
      var b := Run(Config(defaultTtl, big), calls);
      OneExtraSize(m, b);
      SubsequenceThenOneExtra(s, m, b);
    }
  }

  /** A bigger cache never misses where a smaller one hits, and gives the same value. */
  lemma BiggerCacheNeverMissesMore<K, V>(defaultTtl: int, small: nat, big: nat, calls: seq<Call<K, V>>, key: K,
                                         now: real)
    requires small <= big
    ensures var hit := AfterGet(Run(Config(defaultTtl, small), calls), key, now).0;
            hit.Some? ==> AfterGet(Run(Config(defaultTtl, big), calls), key, now).0 == hit
  {
    var s, b := Run(Config(defaultTtl, small), calls), Run(Config(defaultTtl, big), calls);
    if Lookup(s, key).Some? {
      SmallerCacheIsIncluded(defaultTtl, small, big, calls);
      RunKeepsStore(Config(defaultTtl, big), calls);
      SubsequenceMember(s, b, Lookup(s, key).value);
      LookupMember(b, Lookup(s, key).value);
    }
  }
}
