// The cache's contents as a recency list: items with distinct keys, least recently used first. This
// is the specification of every cache operation; QlruCache.dfy is the cache itself.

module RecencyList {
  import opened Prelude

  // `ttl` in milliseconds; `expirationTime` is absolute, 0 when the entry never expires.
  datatype Entry<+V> = Entry(value: V, expirationTime: int, ttl: int)

  datatype Item<+K, +V> = Item(key: K, entry: Entry<V>)

  type List<K, V> = seq<Item<K, V>>

  // The lifetime asked of `set`, after the default and the random offset were applied.
  datatype Ttl = KeepTtl | Seconds(n: int)

  // get() and has() look at the entry's ttl, the sweep at its expiration time.
  predicate ExpiredOnAccess<V>(e: Entry<V>, now: int) {
    e.ttl > 0 && now > e.expirationTime
  }

  predicate ExpiredOnSweep<V>(e: Entry<V>, now: int) {
    e.expirationTime > 0 && now > e.expirationTime
  }

  ghost predicate Stamped<V>(e: Entry<V>) {
    e.ttl > 0 <==> e.expirationTime > 0
  }

  function EntryStamped<V>(value: V, seconds: int, now: int): Entry<V> {
    Entry(value, if seconds > 0 then now + seconds * 1000 else 0, seconds * 1000)
  }

  function EntryFor<V>(prior: Option<Entry<V>>, value: V, ttl: Ttl, defaultTtl: int, now: int): Entry<V> {
    match ttl
    case Seconds(n) => EntryStamped(value, n, now)
    case KeepTtl =>
      if prior.Some? then Entry(value, prior.value.expirationTime, prior.value.ttl)
      else EntryStamped(value, defaultTtl, now)
  }

  // ----- lists ------------------------------------------------------------------------------

  ghost predicate Distinct<K, V>(l: List<K, V>) {
    forall i, j | 0 <= i < j < |l| :: l[i].key != l[j].key
  }

  ghost function Keys<K, V>(l: List<K, V>): set<K> {
    set it | it in l :: it.key
  }

  function Find<K(==), V>(l: List<K, V>, key: K): (found: Option<Entry<V>>)
    ensures found.Some? ==> Item(key, found.value) in l
    ensures found.None? ==> forall it | it in l :: it.key != key
  {
    if l == [] then None else if l[0].key == key then Some(l[0].entry) else Find(l[1..], key)
  }

  function Keep<K, V>(l: List<K, V>, p: Item<K, V> -> bool): List<K, V> {
    if l == [] then []
    else
      var it := l[|l| - 1];
      Keep(l[..|l| - 1], p) + if p(it) then [it] else []
  }

  function Other<K(==), V>(key: K): Item<K, V> -> bool {
    (it: Item<K, V>) => it.key != key
  }

  function Among<K(==), V>(keys: set<K>): Item<K, V> -> bool {
    (it: Item<K, V>) => it.key in keys
  }

  function Unexpired<K, V>(now: int): Item<K, V> -> bool {
    (it: Item<K, V>) => !ExpiredOnSweep(it.entry, now)
  }

  function Without<K(==), V>(l: List<K, V>, key: K): List<K, V> {
    Keep(l, Other(key))
  }

  // ----- the operations ---------------------------------------------------------------------

  function Touched<K(==), V>(l: List<K, V>, key: K, e: Entry<V>): List<K, V> {
    Without(l, key) + [Item(key, e)]
  }

  function Hit<K(==), V>(l: List<K, V>, key: K, now: int): Option<Entry<V>> {
    var found := Find(l, key);
    if found.Some? && !ExpiredOnAccess(found.value, now) then found else None
  }

  function AfterGet<K(==), V>(l: List<K, V>, key: K, now: int): List<K, V> {
    var hit := Hit(l, key, now);
    if hit.Some? then Touched(l, key, hit.value) else Without(l, key)
  }

  function AfterHas<K(==), V>(l: List<K, V>, key: K, now: int): List<K, V> {
    if Hit(l, key, now).Some? then l else Without(l, key)
  }

  function Evicted<K, V>(l: List<K, V>, capacity: nat): List<K, V> {
    if |l| > capacity then l[1..] else l
  }

  function AfterSet<K(==), V>(l: List<K, V>, capacity: nat, key: K, value: V, ttl: Ttl, defaultTtl: int, now: int): List<K, V> {
    Evicted(Touched(l, key, EntryFor(Find(l, key), value, ttl, defaultTtl, now)), capacity)
  }

  function Swept<K, V>(l: List<K, V>, now: int): List<K, V> {
    Keep(l, Unexpired(now))
  }

  // ----- facts about lists ------------------------------------------------------------------

  lemma {:induction false} KeepAppend<K, V>(a: List<K, V>, b: List<K, V>, p: Item<K, V> -> bool)
    ensures Keep(a + b, p) == Keep(a, p) + Keep(b, p)
  {
    if b == [] {
      assert a + b == a;
    } else {
      var front, last := b[..|b| - 1], b[|b| - 1];
      var tail := if p(last) then [last] else [];
      calc {
        Keep(a + b, p);
        { assert (a + b)[..|a + b| - 1] == a + front; }
        Keep(a + front, p) + tail;
        { KeepAppend(a, front, p); }
        (Keep(a, p) + Keep(front, p)) + tail;
        Keep(a, p) + (Keep(front, p) + tail);
        Keep(a, p) + Keep(b, p);
      }
    }
  }

  lemma {:induction false} KeepWithin<K, V>(l: List<K, V>, p: Item<K, V> -> bool)
    ensures forall it | it in Keep(l, p) :: it in l && p(it)
    ensures |Keep(l, p)| <= |l|
  {
    if l != [] {
      KeepWithin(l[..|l| - 1], p);
    }
  }

  lemma {:induction false} KeepAll<K, V>(l: List<K, V>, p: Item<K, V> -> bool)
    requires forall i | 0 <= i < |l| :: p(l[i])
    ensures Keep(l, p) == l
  {
    if l != [] {
      KeepAll(l[..|l| - 1], p);
    }
  }

  lemma {:induction false} KeepSame<K, V>(l: List<K, V>, p: Item<K, V> -> bool, q: Item<K, V> -> bool)
    requires forall it | it in l :: p(it) == q(it)
    ensures Keep(l, p) == Keep(l, q)
  {
    if l != [] {
      KeepSame(l[..|l| - 1], p, q);
    }
  }

  lemma {:induction false} KeepMember<K, V>(l: List<K, V>, p: Item<K, V> -> bool, it: Item<K, V>)
    requires it in l && p(it)
    ensures it in Keep(l, p)
  {
    if it != l[|l| - 1] {
      KeepMember(l[..|l| - 1], p, it);
    }
  }

  lemma {:induction false} KeepDistinct<K, V>(l: List<K, V>, p: Item<K, V> -> bool)
    requires Distinct(l)
    ensures Distinct(Keep(l, p))
  {
    if l != [] {
      var front, last := l[..|l| - 1], l[|l| - 1];
      KeepDistinct(front, p);
      KeepWithin(front, p);
      forall it | it in front ensures it.key != last.key {
        var i :| 0 <= i < |front| && front[i] == it;
        assert l[i].key != l[|l| - 1].key;
      }
      assert forall i | 0 <= i < |Keep(front, p)| :: Keep(front, p)[i] in front;
    }
  }

  // Two filters commute, whatever they test.
  lemma {:induction false} KeepKeep<K, V>(l: List<K, V>, p: Item<K, V> -> bool, q: Item<K, V> -> bool)
    ensures Keep(Keep(l, p), q) == Keep(Keep(l, q), p)
  {
    if l != [] {
      var front, it := l[..|l| - 1], l[|l| - 1];
      KeepKeep(front, p, q);
      KeepAppend(Keep(front, p), if p(it) then [it] else [], q);
      KeepAppend(Keep(front, q), if q(it) then [it] else [], p);
    }
  }

  lemma {:induction false} KeepAllBut<K, V>(before: List<K, V>, it: Item<K, V>, after: List<K, V>, p: Item<K, V> -> bool)
    requires !p(it)
    requires forall i | 0 <= i < |before| :: p(before[i])
    requires forall i | 0 <= i < |after| :: p(after[i])
    ensures Keep(before + ([it] + after), p) == before + after
  {
    assert Keep([it], p) == [];
    hide Keep;
    KeepAppend(before, [it] + after, p);
    KeepAppend([it], after, p);
    KeepAll(before, p);
    KeepAll(after, p);
    assert [] + after == after;
  }

  lemma WithoutAt<K, V>(l: List<K, V>, i: nat)
    requires Distinct(l) && i < |l|
    ensures Without(l, l[i].key) == l[..i] + l[i + 1..]
  {
    hide Keep;
    var before, after := l[..i], l[i + 1..];
    assert l == before + ([l[i]] + after);
    assert forall j | 0 <= j < |after| :: after[j] == l[i + 1 + j];
    KeepAllBut(before, l[i], after, Other<K, V>(l[i].key));
  }

  lemma WithoutAbsent<K, V>(l: List<K, V>, key: K)
    requires key !in Keys(l)
    ensures Without(l, key) == l
  {
    forall i | 0 <= i < |l| ensures l[i].key != key {
      assert l[i] in l;
    }
    KeepAll(l, Other<K, V>(key));
  }

  lemma {:induction false} FoundIff<K, V>(l: List<K, V>, key: K)
    ensures Find(l, key).Some? <==> key in Keys(l)
    ensures Distinct(l) ==> forall e :: Item(key, e) in l ==> Find(l, key) == Some(e)
  {
  }

  lemma {:induction false} KeysCounted<K, V>(l: List<K, V>)
    requires Distinct(l)
    ensures |Keys(l)| == |l|
  {
    if l != [] {
      var front, it := l[..|l| - 1], l[|l| - 1];
      KeysCounted(front);
      assert Keys(l) == Keys(front) + {it.key};
      assert it.key !in Keys(front);
    }
  }

  lemma TouchedDistinct<K, V>(l: List<K, V>, key: K, e: Entry<V>)
    requires Distinct(l)
    ensures Distinct(Touched(l, key, e))
    ensures Keys(Touched(l, key, e)) == Keys(l) + {key}
  {
    KeepDistinct(l, Other<K, V>(key));
    KeepWithin(l, Other<K, V>(key));
    assert forall i | 0 <= i < |Without(l, key)| :: Without(l, key)[i] in Without(l, key);
    forall k | k in Keys(l) && k != key ensures k in Keys(Without(l, key)) {
      var it :| it in l && it.key == k;
      KeepMember(l, Other<K, V>(key), it);
    }
    assert Touched(l, key, e)[|Without(l, key)|] == Item(key, e);
    forall k | k in Keys(l) + {key} ensures k in Keys(Touched(l, key, e)) {
    }
  }
}
