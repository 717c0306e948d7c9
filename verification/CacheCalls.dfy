// The cache as its callers see it: what a get answers after one other call, in terms of the arguments
// of the two calls alone.

module CacheCalls {
  import opened Prelude
  import opened RecencyList
  import opened CacheRuns
  import opened QlruCacheModel

  // An entry of that lifetime in seconds, written at `at`, is still good at `now`; a lifetime that is not
  // positive has no end.
  predicate Good(seconds: int, at: int, now: int) {
    seconds <= 0 || now <= at + seconds * 1000
  }

  lemma ReachableIsSound<K, V>(cache: QlruCache<K, V>)
    requires cache.Valid()
    ensures Sound(Config(cache.capacity, cache.ttl), cache.Recency())
  {
  }

  // Until when what a set leaves behind is good.
  lemma GoodUntil<V>(prior: Option<Entry<V>>, value: V, exp: Option<Ttl>, ttl: int, withOffset: int -> int, at: int, now: int)
    requires at > 0 && (prior.Some? ==> Stamped(prior.value))
    ensures var e := EntryFor(prior, value, Lifetime(exp, ttl, withOffset), ttl, at);
            && e.value == value
            && (exp.None? ==> (ExpiredOnAccess(e, now) <==> !Good(withOffset(ttl), at, now)))
            && (exp.Some? && exp.value.Seconds? ==> (ExpiredOnAccess(e, now) <==> !Good(withOffset(exp.value.n), at, now)))
            && (exp.Some? && exp.value.KeepTtl? && prior.None? ==> (ExpiredOnAccess(e, now) <==> !Good(ttl, at, now)))
            && (exp.Some? && exp.value.KeepTtl? && prior.Some? ==>
                 (ExpiredOnAccess(e, now) <==> prior.value.expirationTime > 0 && now > prior.value.expirationTime))
  {
  }

  // A set and a get of the same key. Without `exp` the entry has the lifetime of the cache, with one it
  // has that, each with the offset that the call draws; KEEPTTL keeps the moment of expiry of the entry
  // that was there, and takes the lifetime of the cache, without offset, where there was none.
  method SetThenGetIt<K, V>(cache: QlruCache<K, V>, key: K, value: V, exp: Option<Ttl>, withOffset: int -> int, at: int, now: int)
    returns (found: Option<V>)
    requires cache.Valid() && at > 0
    modifies cache
    ensures cache.Valid()
    ensures found.Some? ==> found.value == value
    ensures exp.None? ==> (found.Some? <==> Good(withOffset(cache.ttl), at, now))
    ensures exp.Some? && exp.value.Seconds? ==> (found.Some? <==> Good(withOffset(exp.value.n), at, now))
    ensures exp.Some? && exp.value.KeepTtl? && key !in old(cache.table) ==> (found.Some? <==> Good(cache.ttl, at, now))
    ensures exp.Some? && exp.value.KeepTtl? && key in old(cache.table) ==>
              (found.Some? <==> old(cache.table[key]).expirationTime <= 0 || now <= old(cache.table[key]).expirationTime)
  {
    ghost var c, l := Config(cache.capacity, cache.ttl), cache.Recency();
    ReachableIsSound(cache);
    ZipFind(cache.order, cache.table, key);
    FindIs(l, key);
    SetIsFound(c, l, key, value, Lifetime(exp, cache.ttl, withOffset), at);
    assert key in cache.table ==> Stamped(cache.table[key]);
    GoodUntil(Find(l, key), value, exp, cache.ttl, withOffset, at, now);
    hide Find, Keep, EntryFor, Lifetime, ExpiredOnAccess, Good, Stamped, Zip;
    cache.Set(key, value, exp, withOffset, at);
    found := cache.Get(key, now);
  }

  // A set and a get of another key: the answer is what it would have been, unless the cache was full
  // without the key that is set and the other one was the least recently used.
  method SetThenGetOther<K, V>(cache: QlruCache<K, V>, key: K, value: V, exp: Option<Ttl>, withOffset: int -> int, at: int,
                               other: K, now: int)
    returns (found: Option<V>)
    requires cache.Valid() && at > 0 && other != key
    modifies cache
    ensures cache.Valid()
    ensures found ==
            if other in old(cache.table)
               && !(|old(cache.order)| == cache.capacity && key !in old(cache.table) && old(cache.order)[0] == other)
               && (old(cache.table[other]).expirationTime <= 0 || now <= old(cache.table[other]).expirationTime)
            then Some(old(cache.table[other]).value) else None
  {
    ghost var c, l := Config(cache.capacity, cache.ttl), cache.Recency();
    ReachableIsSound(cache);
    ZipFind(cache.order, cache.table, key);
    ZipFind(cache.order, cache.table, other);
    LookupAfterSet(c, l, Op<K, V>.Set(key, value, Lifetime(exp, cache.ttl, withOffset), at), other);
    assert other in cache.table ==> Stamped(cache.table[other]);
    hide Find, Keep;
    cache.Set(key, value, exp, withOffset, at);
    found := cache.Get(other, now);
  }

  // After a delete the key is not there; every other one answers as it would have.
  method DeleteThenGet<K, V>(cache: QlruCache<K, V>, key: K, other: K, now: int) returns (found: Option<V>)
    requires cache.Valid()
    modifies cache
    ensures cache.Valid()
    ensures found ==
            if other != key && other in old(cache.table)
               && (old(cache.table[other]).expirationTime <= 0 || now <= old(cache.table[other]).expirationTime)
            then Some(old(cache.table[other]).value) else None
  {
    ghost var c, l := Config(cache.capacity, cache.ttl), cache.Recency();
    ReachableIsSound(cache);
    ZipFind(cache.order, cache.table, other);
    LookupAfter(c, l, Op<K, V>.Delete(key), other);
    assert other in cache.table ==> Stamped(cache.table[other]);
    hide Find, Keep;
    var _ := cache.Delete(key);
    found := cache.Get(other, now);
  }

  // A sweep is not to be noticed: a get at that moment or later answers as it would have.
  method SizeThenGet<K, V>(cache: QlruCache<K, V>, at: int, key: K, now: int) returns (found: Option<V>)
    requires cache.Valid() && at <= now
    modifies cache
    ensures cache.Valid()
    ensures found ==
            if key in old(cache.table)
               && (old(cache.table[key]).expirationTime <= 0 || now <= old(cache.table[key]).expirationTime)
            then Some(old(cache.table[key]).value) else None
  {
    ghost var c, l := Config(cache.capacity, cache.ttl), cache.Recency();
    ReachableIsSound(cache);
    ZipFind(cache.order, cache.table, key);
    LookupAfter(c, l, Op<K, V>.Sweep(at), key);
    assert key in cache.table ==> Stamped(cache.table[key]);
    hide Find, Keep;
    var _ := cache.Size(at);
    found := cache.Get(key, now);
  }
}
