// ZanixQLRUConnector: a map that remembers insertion order, kept in recency order by deleting and
// re-inserting. `order` and `table` together are the JavaScript Map; `now` stands for Date.now().

module QlruCacheModel {
  import opened Prelude
  import opened RecencyList

  ghost predicate Paired<K, V>(order: seq<K>, table: map<K, Entry<V>>) {
    && (forall i, j | 0 <= i < j < |order| :: order[i] != order[j])
    && (forall i | 0 <= i < |order| :: order[i] in table)
    && (forall k | k in table :: k in order)
  }

  ghost function Zip<K, V>(order: seq<K>, table: map<K, Entry<V>>): (l: List<K, V>)
    requires forall i | 0 <= i < |order| :: order[i] in table
    ensures |l| == |order|
    ensures forall i | 0 <= i < |order| :: l[i] == Item(order[i], table[order[i]])
  {
    seq(|order|, i requires 0 <= i < |order| => Item(order[i], table[order[i]]))
  }

  // What the caller asked for, or the cache's default, plus the offset; KEEPTTL takes no offset.
  function Lifetime(exp: Option<Ttl>, defaultTtl: int, withOffset: int -> int): Ttl {
    match exp
    case None => Seconds(withOffset(defaultTtl))
    case Some(KeepTtl) => KeepTtl
    case Some(Seconds(n)) => Seconds(withOffset(n))
  }

  // The list in the middle of a sweep over `before`, of which the first `done` items have been
  // looked at and i of them kept.
  ghost predicate Sweeping<K, V>(before: List<K, V>, done: nat, p: Item<K, V> -> bool, l: List<K, V>, i: nat) {
    && done <= |before|
    && i == |Keep(before[..done], p)|
    && l == Keep(before[..done], p) + before[done..]
  }

  lemma SweepStarts<K, V>(before: List<K, V>, p: Item<K, V> -> bool)
    ensures Sweeping(before, 0, p, before, 0)
  {
    assert before[..0] == [] && before[0..] == before;
  }

  lemma SweepGoesOn<K, V>(before: List<K, V>, done: nat, p: Item<K, V> -> bool, l: List<K, V>, i: nat)
    requires Sweeping(before, done, p, l, i) && i < |l|
    ensures done < |before|
    ensures p(l[i]) ==> Sweeping(before, done + 1, p, l, i + 1)
    ensures !p(l[i]) ==> Sweeping(before, done + 1, p, l[..i] + l[i + 1..], i)
  {
    assert before[..done + 1][..done] == before[..done];
  }

  lemma {:induction false} SweepEnds<K, V>(before: List<K, V>, done: nat, p: Item<K, V> -> bool, l: List<K, V>, i: nat)
    requires Sweeping(before, done, p, l, i) && i >= |l|
    ensures l == Keep(before, p)
  {
    assert before[..done] == before;
  }

  function IndexOf<K(==)>(order: seq<K>, key: K): (i: nat)
    requires key in order
    ensures i < |order| && order[i] == key
  {
    if order[0] == key then 0 else 1 + IndexOf(order[1..], key)
  }

  lemma ZipFind<K, V>(order: seq<K>, table: map<K, Entry<V>>, key: K)
    requires Paired(order, table)
    ensures Find(Zip(order, table), key) == if key in table then Some(table[key]) else None
  {
    var l := Zip(order, table);
    FoundIff(l, key);
    if key in table {
      var i :| 0 <= i < |order| && order[i] == key;
      assert l[i] in l;
    }
  }

  lemma ZipAbsent<K, V>(order: seq<K>, table: map<K, Entry<V>>, key: K)
    requires Paired(order, table) && key !in table
    ensures Without(Zip(order, table), key) == Zip(order, table)
  {
    WithoutAbsent(Zip(order, table), key);
  }

  lemma PairedRemove<K, V>(order: seq<K>, table: map<K, Entry<V>>, i: nat)
    requires Paired(order, table) && i < |order|
    ensures Paired(order[..i] + order[i + 1..], table - {order[i]})
  {
    var rest := order[..i] + order[i + 1..];
    forall k | k in table - {order[i]} ensures k in rest {
      var j :| 0 <= j < |order| && order[j] == k;
      assert if j < i then rest[j] == k else rest[j - 1] == k;
    }
  }

  lemma ZipRemove<K, V>(order: seq<K>, table: map<K, Entry<V>>, i: nat)
    requires Paired(order, table) && i < |order|
    ensures Paired(order[..i] + order[i + 1..], table - {order[i]})
    ensures Zip(order[..i] + order[i + 1..], table - {order[i]}) == Zip(order, table)[..i] + Zip(order, table)[i + 1..]
    ensures Zip(order, table)[..i] + Zip(order, table)[i + 1..] == Without(Zip(order, table), order[i])
  {
    hide Keep;
    PairedRemove(order, table, i);
    var l := Zip(order, table);
    assert Distinct(l);
    WithoutAt(l, i);
  }

  lemma ListedIff<K, V>(order: seq<K>, table: map<K, Entry<V>>, key: K)
    requires Paired(order, table)
    ensures key in table <==> key in order
  {
  }

  class QlruCache<K(==), V> {
    const capacity: nat
    const ttl: int
    var order: seq<K>
    var table: map<K, Entry<V>>

    ghost predicate Valid()
      reads this
    {
      && capacity > 0
      && Paired(order, table)
      && |order| <= capacity
      && forall k | k in table :: Stamped(table[k])
    }

    ghost function Recency(): List<K, V>
      reads this
      requires Valid()
    {
      Zip(order, table)
    }

    // A capacity that is not positive is refused by throwing.
    static method Create(capacity: int, ttl: int) returns (r: Option<QlruCache<K, V>>)
      ensures r.Some? <==> capacity > 0
      ensures r.Some? ==> fresh(r.value) && r.value.Valid() && r.value.Recency() == []
                          && r.value.capacity == capacity && r.value.ttl == ttl
    {
      if capacity <= 0 {
        return None;
      }
      var cache := new QlruCache<K, V>(capacity, ttl);
      r := Some(cache);
    }

    constructor (capacity: nat, ttl: int)
      requires capacity > 0
      ensures Valid() && Recency() == [] && this.capacity == capacity && this.ttl == ttl
    {
      this.capacity := capacity;
      this.ttl := ttl;
      order := [];
      table := map[];
    }

    // Map.prototype.delete
    method MapDelete(key: K) returns (removed: bool)
      requires Paired(order, table)
      modifies this`order, this`table
      ensures Paired(order, table) && table == old(table) - {key}
      ensures removed == (key in old(table))
      ensures Zip(order, table) == Without(Zip(old(order), old(table)), key)
      ensures removed ==> exists i :: 0 <= i < |old(order)| && old(order)[i] == key
                                      && order == old(order)[..i] + old(order)[i + 1..]
      ensures !removed ==> order == old(order)
    {
      hide Paired, Without, Zip;
      removed := key in table;
      ListedIff(order, table, key);
      if removed {
        var i := IndexOf(order, key);
        ZipRemove(order, table, i);
        order := order[..i] + order[i + 1..];
        table := table - {key};
      } else {
        ZipAbsent(order, table, key);
        assert table - {key} == table;
      }
    }

    // Map.prototype.set for a key that is not there: it goes to the end.
    method MapAppend(key: K, e: Entry<V>)
      requires Paired(order, table) && key !in table
      modifies this`order, this`table
      ensures Paired(order, table) && table == old(table)[key := e]
      ensures order == old(order) + [key]
      ensures Zip(order, table) == Zip(old(order), old(table)) + [Item(key, e)]
    {
      order := order + [key];
      table := table[key := e];
    }

    method Get(key: K, now: int) returns (value: Option<V>)
      requires Valid()
      modifies this`order, this`table
      ensures Valid() && Recency() == AfterGet(old(Recency()), key, now)
      ensures value == var hit := Hit(old(Recency()), key, now); if hit.Some? then Some(hit.value.value) else None
    {
      ZipFind(order, table, key);
      if key !in table {
        ZipAbsent(order, table, key);
        return None;
      }
      var entry := table[key];
      var _ := MapDelete(key);
      if entry.ttl > 0 && now > entry.expirationTime {
        return None;
      }
      MapAppend(key, entry);
      value := Some(entry.value);
    }

    // Deletes the entry that the iteration over the map has reached.
    method DeleteAt(i: nat)
      requires Paired(order, table) && i < |order|
      modifies this`order, this`table
      ensures Paired(order, table) && table == old(table) - {old(order)[i]} && |order| == |old(order)| - 1
      ensures Zip(order, table) == Zip(old(order), old(table))[..i] + Zip(old(order), old(table))[i + 1..]
    {
      ZipRemove(order, table, i);
      order, table := order[..i] + order[i + 1..], table - {order[i]};
    }

    method BuildEntry(oldValue: Option<Entry<V>>, value: V, exp: Option<Ttl>, withOffset: int -> int, now: int)
      returns (opts: Entry<V>)
      requires now > 0 && (oldValue.Some? ==> Stamped(oldValue.value))
      ensures Stamped(opts) && opts == EntryFor(oldValue, value, Lifetime(exp, ttl, withOffset), ttl, now)
    {
      var chosen := if exp.None? then Seconds(ttl) else exp.value;
      if chosen.KeepTtl? {
        var expires := if ttl > 0 then now + ttl * 1000 else 0;
        opts := Entry(value,
                      if oldValue.Some? then oldValue.value.expirationTime else expires,
                      if oldValue.Some? then oldValue.value.ttl else ttl * 1000);
      } else {
        var ttlWithOffset := withOffset(chosen.n);
        opts := Entry(value, if ttlWithOffset > 0 then now + ttlWithOffset * 1000 else 0, ttlWithOffset * 1000);
      }
    }

    // `exp` is the caller's lifetime, if any; `withOffset` is the random offset this call draws.
    method Set(key: K, value: V, exp: Option<Ttl>, withOffset: int -> int, now: int)
      requires Valid() && now > 0
      modifies this`order, this`table
      ensures Valid()
      ensures Recency() == AfterSet(old(Recency()), capacity, key, value, Lifetime(exp, ttl, withOffset), ttl, now)
    {
      hide Keep, Zip, Paired, Find, EntryFor;
      ghost var before := Recency();
      ZipFind(order, table, key);
      var oldValue := if key in table then Some(table[key]) else None;
      var _ := MapDelete(key);
      var opts := BuildEntry(oldValue, value, exp, withOffset, now);
      MapAppend(key, opts);
      assert Zip(order, table) == Touched(before, key, opts);
      if |order| > capacity {
        DeleteAt(0);
        assert Touched(before, key, opts)[..0] + Touched(before, key, opts)[1..] == Touched(before, key, opts)[1..];
      }
    }

    method Has(key: K, now: int) returns (found: bool)
      requires Valid()
      modifies this`order, this`table
      ensures Valid() && Recency() == AfterHas(old(Recency()), key, now)
      ensures found <==> Hit(old(Recency()), key, now).Some?
    {
      hide Keep, Find;
      ZipFind(order, table, key);
      if key !in table {
        ZipAbsent(order, table, key);
        return false;
      }
      if table[key].ttl > 0 && now > table[key].expirationTime {
        var _ := MapDelete(key);
        return false;
      }
      found := true;
    }

    method Delete(key: K) returns (removed: bool)
      requires Valid()
      modifies this`order, this`table
      ensures Valid() && Recency() == Without(old(Recency()), key)
      ensures removed <==> Find(old(Recency()), key).Some?
    {
      ZipFind(order, table, key);
      removed := MapDelete(key);
    }

    method Clear()
      requires Valid()
      modifies this`order, this`table
      ensures Valid() && Recency() == []
    {
      order := [];
      table := map[];
    }

    // What the sweep does with the entry it has reached; deleting moves the next one to position i.
    method Visit(i: nat, now: int) returns (next: nat)
      requires Valid() && i < |order|
      modifies this`order, this`table
      ensures Valid() && |order| - next == |old(order)| - i - 1
      ensures if Unexpired<K, V>(now)(old(Recency())[i])
              then next == i + 1 && Recency() == old(Recency())
              else next == i && Recency() == old(Recency())[..i] + old(Recency())[i + 1..]
    {
      hide Keep;
      var entry := table[order[i]];
      if entry.expirationTime > 0 && now > entry.expirationTime {
        DeleteAt(i);
        next := i;
      } else {
        next := i + 1;
      }
    }

    // The sweep behind size(), keys() and values(): deletes while it walks the map in order.
    method Evict(now: int)
      requires Valid()
      modifies this`order, this`table
      ensures Valid() && Recency() == Swept(old(Recency()), now)
    {
      ghost var before, done := Recency(), 0;
      SweepStarts(before, Unexpired(now));
      hide Keep, Zip, Paired, Unexpired, Sweeping;
      var i: nat := 0;
      while i < |order|
        invariant Valid() && Sweeping(before, done, Unexpired(now), Recency(), i)
        decreases |order| - i
      {
        SweepGoesOn(before, done, Unexpired(now), Recency(), i);
        i := Visit(i, now);
        done := done + 1;
      }
      SweepEnds(before, done, Unexpired(now), Recency(), i);
    }

    method Size(now: int) returns (n: nat)
      requires Valid()
      modifies this`order, this`table
      ensures Valid() && Recency() == Swept(old(Recency()), now) && n == |Recency()|
    {
      Evict(now);
      n := |order|;
    }

    method LiveKeys(now: int) returns (keys: seq<K>)
      requires Valid()
      modifies this`order, this`table
      ensures Valid() && Recency() == Swept(old(Recency()), now)
      ensures |keys| == |Recency()| && forall i | 0 <= i < |keys| :: keys[i] == Recency()[i].key
    {
      Evict(now);
      keys := order;
    }

    method LiveValues(now: int) returns (values: seq<V>)
      requires Valid()
      modifies this`order, this`table
      ensures Valid() && Recency() == Swept(old(Recency()), now)
      ensures |values| == |Recency()| && forall i | 0 <= i < |values| :: values[i] == Recency()[i].entry.value
    {
      Evict(now);
      var entries, names := table, order;
      values := seq(|names|, i requires 0 <= i < |names| && names[i] in entries => entries[names[i]].value);
    }
  }
}
