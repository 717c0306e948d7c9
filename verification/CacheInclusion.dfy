// Inclusion: of two caches fed the same operations, the smaller one always holds part of what the
// larger one holds, in the same order and with the same entries.

module CacheInclusion {
  import opened Prelude
  import opened RecencyList
  import opened CacheRuns

  // `small` is `large` with some items left out.
  ghost predicate Embedded<K, V>(small: List<K, V>, large: List<K, V>) {
    small == Keep(large, Among(Keys(small)))
  }

  ghost predicate Included<K, V>(small: List<K, V>, large: List<K, V>, gap: nat) {
    Distinct(small) && Distinct(large) && Embedded(small, large) && |large| <= |small| + gap
  }

  function NotAmong<K(==), V>(keys: set<K>): Item<K, V> -> bool {
    (it: Item<K, V>) => it.key !in keys
  }

  lemma EmbeddedMember<K, V>(small: List<K, V>, large: List<K, V>, it: Item<K, V>)
    requires Embedded(small, large) && it in small
    ensures it in large
  {
    KeepWithin(large, Among<K, V>(Keys(small)));
  }

  lemma {:induction false} EmbeddedFind<K, V>(small: List<K, V>, large: List<K, V>, key: K)
    requires Embedded(small, large) && Distinct(small) && Distinct(large)
    ensures Find(small, key).Some? ==> Find(large, key) == Find(small, key)
    ensures Find(small, key).Some? <==> key in Keys(small)
    ensures Find(large, key).Some? <==> key in Keys(large)
  {
    FoundIff(small, key);
    FoundIff(large, key);
    if Find(small, key).Some? {
      EmbeddedMember(small, large, Item(key, Find(small, key).value));
    }
  }

  lemma {:induction false} KeepSplits<K, V>(l: List<K, V>, keys: set<K>)
    ensures |Keep(l, Among(keys))| + |Keep(l, NotAmong(keys))| == |l|
  {
    if l != [] {
      KeepSplits(l[..|l| - 1], keys);
    }
  }

  // In a list with distinct keys, an item whose key is kept is itself kept.
  lemma {:induction false} SameKeySameItem<K, V>(small: List<K, V>, large: List<K, V>, p: Item<K, V> -> bool, it: Item<K, V>)
    requires Embedded(small, large) && Distinct(large) && it in large && p(it)
    ensures it.key in Keys(small) <==> it.key in Keys(Keep(small, p))
  {
    KeepWithin(small, p);
    if it.key in Keys(small) {
      var other :| other in small && other.key == it.key;
      EmbeddedMember(small, large, other);
      assert other == it;
      KeepMember(small, p, it);
    }
  }

  // Filtering both lists by the same test keeps the smaller embedded and never widens the gap.
  lemma {:induction false} KeepIncluded<K, V>(small: List<K, V>, large: List<K, V>, p: Item<K, V> -> bool, gap: nat)
    requires Included(small, large, gap)
    ensures Included(Keep(small, p), Keep(large, p), gap)
  {
    var keys, kept := Keys(small), Keep(large, p);
    var keys' := Keys(Keep(small, p));
    KeepDistinct(small, p);
    KeepDistinct(large, p);
    KeepWithin(large, p);
    forall it | it in kept ensures it.key in keys <==> it.key in keys' {
      SameKeySameItem(small, large, p, it);
    }
    KeepSame(kept, Among<K, V>(keys), Among<K, V>(keys'));
    KeepKeep(large, p, Among<K, V>(keys));
    KeepSame(kept, NotAmong<K, V>(keys), NotAmong<K, V>(keys'));
    KeepKeep(large, p, NotAmong<K, V>(keys));
    KeepWithin(Keep(large, NotAmong<K, V>(keys)), p);
    KeepSplits(large, keys);
    KeepSplits(kept, keys');
  }

  lemma TouchIncluded<K, V>(small: List<K, V>, large: List<K, V>, key: K, e: Entry<V>, gap: nat)
    requires Included(small, large, gap)
    ensures Included(Touched(small, key, e), Touched(large, key, e), gap)
  {
    var s, l, it := Without(small, key), Without(large, key), Item(key, e);
    KeepIncluded(small, large, Other<K, V>(key), gap);
    TouchedDistinct(small, key, e);
    TouchedDistinct(large, key, e);
    KeepWithin(large, Other<K, V>(key));
    var keys := Keys(s + [it]);
    KeepAppend(l, [it], Among<K, V>(keys));
    assert it in s + [it];
    assert keys == Keys(s) + {key} by {
      forall k | k in keys ensures k in Keys(s) + {key} {
      }
      forall k | k in Keys(s) ensures k in keys {
        var other :| other in s && other.key == k;
        assert other in s + [it];
      }
    }
    KeepSame(l, Among<K, V>(Keys(s)), Among<K, V>(keys));
    assert Keep([it], Among<K, V>(keys)) == [it];
  }

  // A hit in the larger cache alone moves an item the smaller one does not have.
  lemma TouchLargeIncluded<K, V>(small: List<K, V>, large: List<K, V>, key: K, e: Entry<V>, gap: nat)
    requires Included(small, large, gap) && key !in Keys(small) && key in Keys(large)
    ensures Included(small, Touched(large, key, e), gap)
  {
    var keys, it := Keys(small), Item(key, e);
    TouchedDistinct(large, key, e);
    KeysCounted(large);
    KeysCounted(Touched(large, key, e));
    assert Keys(large) + {key} == Keys(large);
    KeepAppend(Without(large, key), [it], Among<K, V>(keys));
    assert Keep([it], Among<K, V>(keys)) == [];
    KeepKeep(large, Other<K, V>(key), Among<K, V>(keys));
    WithoutAbsent(small, key);
  }

  lemma {:induction false} KeepFirst<K, V>(l: List<K, V>, p: Item<K, V> -> bool)
    requires l != []
    ensures Keep(l, p) == (if p(l[0]) then [l[0]] else []) + Keep(l[1..], p)
  {
    assert l == [l[0]] + l[1..];
    KeepAppend([l[0]], l[1..], p);
  }

  lemma TailKeys<K, V>(l: List<K, V>)
    requires Distinct(l) && l != []
    ensures forall k :: k in Keys(l[1..]) <==> k in Keys(l) && k != l[0].key
  {
    forall k | k in Keys(l) && k != l[0].key ensures k in Keys(l[1..]) {
      var i :| 0 <= i < |l| && l[i].key == k;
      assert l[1..][i - 1] in l[1..] && l[1..][i - 1].key == k;
    }
    forall k | k in Keys(l[1..]) ensures k in Keys(l) && k != l[0].key {
      var i :| 0 <= i < |l[1..]| && l[1..][i].key == k;
      assert l[i + 1] in l && l[i + 1].key == k;
    }
  }

  lemma TailDistinct<K, V>(l: List<K, V>)
    requires Distinct(l) && l != []
    ensures Distinct(l[1..])
  {
  }

  lemma DropSmallIncluded<K, V>(small: List<K, V>, large: List<K, V>)
    requires Distinct(small) && Distinct(large) && Embedded(small, large) && small != []
    ensures Distinct(small[1..]) && Embedded(small[1..], large)
  {
    hide Keep, Keys;
    TailKeys(small);
    TailDistinct(small);
    WithoutAt(small, 0);
    assert small[..0] + small[1..] == small[1..];
    KeepBoth(large, Keys(small), small[0].key, Keys(small[1..]));
  }

  lemma {:induction false} KeepBoth<K, V>(l: List<K, V>, keys: set<K>, d: K, rest: set<K>)
    requires forall k :: k in rest <==> k in keys && k != d
    ensures Keep(Keep(l, Among(keys)), Other(d)) == Keep(l, Among(rest))
  {
    if l != [] {
      var front, last := l[..|l| - 1], l[|l| - 1];
      KeepBoth(front, keys, d, rest);
      KeepAppend(Keep(front, Among<K, V>(keys)), if last.key in keys then [last] else [], Other<K, V>(d));
    }
  }

  lemma DropLargeIncluded<K, V>(small: List<K, V>, large: List<K, V>)
    requires Distinct(small) && Distinct(large) && Embedded(small, large) && large != []
    requires large[0].key !in Keys(small)
    ensures Distinct(large[1..]) && Embedded(small, large[1..])
  {
    KeepFirst(large, Among<K, V>(Keys(small)));
  }

  // After a set, both caches cut back to their capacity; the item the larger one evicts is never one
  // the smaller one still holds.
  lemma EvictIncluded<K, V>(small: List<K, V>, large: List<K, V>, c: nat, C: nat)
    requires 0 < c <= C && Included(small, large, C - c)
    requires |small| <= c + 1 && |large| <= C + 1
    ensures Included(Evicted(small, c), Evicted(large, C), C - c)
  {
    if |small| > c {
      DropSmallIncluded(small, large);
      if |large| > C {
        if large[0].key in Keys(small) {
          KeepFirst(large, Among<K, V>(Keys(small)));
          assert small[0] == large[0];
        }
        forall it | it in small[1..] ensures it.key != large[0].key {
          var i :| 0 <= i < |small[1..]| && small[1..][i] == it;
          assert small[i + 1] == it;
          assert it in small;
        }
        DropLargeIncluded(small[1..], large);
      }
    }
  }

  // ----- over runs --------------------------------------------------------------------------

  // The entry that a set would build is the same in both caches: only KEEPTTL looks at what the cache
  // holds, and it makes a difference when the larger one alone still has the key, unless its lifetime
  // is the one that the default would give.
  ghost predicate SameEntry<K, V>(s: List<K, V>, l: List<K, V>, op: Op<K, V>, defaultTtl: int) {
    op.Set? && op.ttl.KeepTtl? && Find(l, op.key).Some? && Find(s, op.key).None? ==>
      var kept, stamped := Find(l, op.key).value, EntryStamped(op.value, defaultTtl, op.now);
      kept.expirationTime == stamped.expirationTime && kept.ttl == stamped.ttl
  }

  ghost predicate SameEntries<K, V>(small: Config, large: Config, ops: seq<Op<K, V>>, n: nat)
    requires n <= |ops|
  {
    forall m | 0 <= m < n :: SameEntry(ListAt(small, ops, m), ListAt(large, ops, m), ops[m], large.ttl)
  }

  lemma SetIncluded<K, V>(small: Config, large: Config, s: List<K, V>, l: List<K, V>, op: Op<K, V>)
    requires 0 < small.capacity <= large.capacity && small.ttl == large.ttl && op.Set? && op.now > 0
    requires Sound(small, s) && Sound(large, l) && Included(s, l, large.capacity - small.capacity)
    requires SameEntry(s, l, op, large.ttl)
    ensures Included(Apply(small, s, op), Apply(large, l, op), large.capacity - small.capacity)
  {
    EmbeddedFind(s, l, op.key);
    FoundIff(l, op.key);
    var e := EntryFor(Find(s, op.key), op.value, op.ttl, small.ttl, op.now);
    assert e == EntryFor(Find(l, op.key), op.value, op.ttl, large.ttl, op.now);
    assert Stamped(e);
    hide Keep, Find, Embedded, EntryFor, SameEntry;
    AfterTouchSound(small, s, op.key, e);
    AfterTouchSound(large, l, op.key, e);
    TouchIncluded(s, l, op.key, e, large.capacity - small.capacity);
    EvictIncluded(Touched(s, op.key, e), Touched(l, op.key, e), small.capacity, large.capacity);
  }

  lemma ApplyIncluded<K, V>(small: Config, large: Config, s: List<K, V>, l: List<K, V>, op: Op<K, V>)
    requires 0 < small.capacity <= large.capacity && small.ttl == large.ttl
    requires Sound(small, s) && Sound(large, l) && Included(s, l, large.capacity - small.capacity)
    requires SameEntry(s, l, op, large.ttl) && (op.Set? ==> op.now > 0)
    ensures Included(Apply(small, s, op), Apply(large, l, op), large.capacity - small.capacity)
  {
    hide Keep, Find, Embedded, SameEntry;
    var gap := large.capacity - small.capacity;
    match op
    case Get(key, now) =>
      EmbeddedFind(s, l, key);
      if Hit(s, key, now).Some? {
        TouchIncluded(s, l, key, Hit(s, key, now).value, gap);
      } else if Hit(l, key, now).Some? {
        WithoutAbsent(s, key);
        TouchLargeIncluded(s, l, key, Hit(l, key, now).value, gap);
      } else {
        KeepIncluded(s, l, Other<K, V>(key), gap);
      }
    case Has(key, now) =>
      EmbeddedFind(s, l, key);
      if Hit(l, key, now).Some? {
        if Hit(s, key, now).None? {
          WithoutAbsent(s, key);
        }
      } else {
        KeepIncluded(s, l, Other<K, V>(key), gap);
      }
    case Set(_, _, _, _) => SetIncluded(small, large, s, l, op);
    case Delete(key) => KeepIncluded(s, l, Other<K, V>(key), gap);
    case Clear => EmbeddedNil<K, V>();
    case Sweep(now) => KeepIncluded(s, l, Unexpired<K, V>(now), gap);
  }

  lemma EmbeddedNil<K, V>()
    ensures Embedded<K, V>([], [])
  {
  }

  lemma {:induction false} Inclusion<K, V>(small: Config, large: Config, ops: seq<Op<K, V>>, k: nat)
    requires 0 < small.capacity <= large.capacity && small.ttl == large.ttl
    requires k <= |ops| && PositiveClock(ops) && SameEntries(small, large, ops, k)
    ensures Included(ListAt(small, ops, k), ListAt(large, ops, k), large.capacity - small.capacity)
  {
    hide Apply, Sound, Embedded, SameEntry;
    if k == 0 {
      EmbeddedNil<K, V>();
    } else {
      AlwaysSound(small, ops, k - 1);
      AlwaysSound(large, ops, k - 1);
      Inclusion(small, large, ops, k - 1);
      ApplyIncluded(small, large, ListAt(small, ops, k - 1), ListAt(large, ops, k - 1), ops[k - 1]);
    }
  }

  // A set that builds different entries leaves a larger cache that the smaller one is not part of.
  lemma DifferentEntry<K, V>(small: Config, large: Config, s: List<K, V>, l: List<K, V>, op: Op<K, V>)
    requires 0 < small.capacity <= large.capacity && small.ttl == large.ttl
    requires Sound(small, s) && Sound(large, l) && (op.Set? ==> op.now > 0) && !SameEntry(s, l, op, large.ttl)
    ensures !Embedded(Apply(small, s, op), Apply(large, l, op))
  {
    ApplySound(small, s, op);
    ApplySound(large, l, op);
    SetIsFound(small, s, op.key, op.value, op.ttl, op.now);
    SetIsFound(large, l, op.key, op.value, op.ttl, op.now);
    hide Keep, Find, Embedded, Apply, Stamped;
    if Embedded(Apply(small, s, op), Apply(large, l, op)) {
      EmbeddedFind(Apply(small, s, op), Apply(large, l, op), op.key);
      assert false;
    }
  }

  ghost predicate EmbeddedThroughout<K, V>(small: Config, large: Config, ops: seq<Op<K, V>>, n: nat)
    requires n <= |ops|
  {
    forall k | 0 <= k <= n :: Embedded(ListAt(small, ops, k), ListAt(large, ops, k))
  }

  // The smaller cache is always part of the larger one if and only if every set builds the same entry
  // in both.
  lemma InclusionIff<K, V>(small: Config, large: Config, ops: seq<Op<K, V>>, n: nat)
    requires 0 < small.capacity <= large.capacity && small.ttl == large.ttl && PositiveClock(ops) && n <= |ops|
    ensures EmbeddedThroughout(small, large, ops, n) <==> SameEntries(small, large, ops, n)
  {
    hide Apply, Sound, Embedded, SameEntry, PositiveClock;
    if SameEntries(small, large, ops, n) {
      forall k | 0 <= k <= n ensures Embedded(ListAt(small, ops, k), ListAt(large, ops, k)) {
        Inclusion(small, large, ops, k);
      }
    } else {
      var m :| 0 <= m < n && !SameEntry(ListAt(small, ops, m), ListAt(large, ops, m), ops[m], large.ttl);
      AlwaysSound(small, ops, m);
      AlwaysSound(large, ops, m);
      assert ops[m].Set? ==> ops[m].now > 0 by { ClockAt(ops, m); }
      DifferentEntry(small, large, ListAt(small, ops, m), ListAt(large, ops, m), ops[m]);
      assert !Embedded(ListAt(small, ops, m + 1), ListAt(large, ops, m + 1));
    }
  }

  lemma ClockAt<K, V>(ops: seq<Op<K, V>>, m: nat)
    requires PositiveClock(ops) && m < |ops|
    ensures ops[m].Set? ==> ops[m].now > 0
  {
  }

  // Every hit in the smaller cache is the same hit in the larger one.
  lemma {:induction false} HitsInLargerCache<K, V>(small: Config, large: Config, ops: seq<Op<K, V>>, k: nat, key: K, now: int)
    requires 0 < small.capacity <= large.capacity && small.ttl == large.ttl
    requires k <= |ops| && PositiveClock(ops) && SameEntries(small, large, ops, k)
    requires Hit(ListAt(small, ops, k), key, now).Some?
    ensures Hit(ListAt(large, ops, k), key, now) == Hit(ListAt(small, ops, k), key, now)
  {
    Inclusion(small, large, ops, k);
    EmbeddedFind(ListAt(small, ops, k), ListAt(large, ops, k), key);
  }

  ghost predicate NoKeepTtl<K, V>(ops: seq<Op<K, V>>) {
    forall k | 0 <= k < |ops| && ops[k].Set? :: ops[k].ttl.Seconds?
  }

  // Without KEEPTTL the condition always holds.
  lemma InclusionWithoutKeepTtl<K, V>(small: Config, large: Config, ops: seq<Op<K, V>>, n: nat)
    requires 0 < small.capacity <= large.capacity && small.ttl == large.ttl
    requires PositiveClock(ops) && NoKeepTtl(ops) && n <= |ops|
    ensures EmbeddedThroughout(small, large, ops, n)
  {
    hide ListAt, EmbeddedThroughout, PositiveClock;
    InclusionIff(small, large, ops, n);
  }

  const RENEWED: seq<Op<string, int>> := [Set("a", 1, Seconds(10), 1), Set("b", 2, Seconds(10), 1), Set("a", 3, KeepTtl, 1)]

  lemma SetAbsent<K, V>(c: Config, l: List<K, V>, key: K, value: V, ttl: Ttl, now: int)
    requires Distinct(l) && key !in Keys(l)
    ensures Apply(c, l, Set(key, value, ttl, now)) == Evicted(l + [Item(key, EntryFor(None, value, ttl, c.ttl, now))], c.capacity)
  {
    hide Keep, Find, EntryFor;
    FoundIff(l, key);
    WithoutAbsent(l, key);
  }

  lemma {:induction false} FindLast<K, V>(l: List<K, V>, it: Item<K, V>)
    requires Distinct(l + [it])
    ensures Find(l + [it], it.key) == Some(it.entry)
  {
    hide Find;
    assert Item(it.key, it.entry) in l + [it];
    FoundIff(l + [it], it.key);
  }

  lemma SmallForgot()
    ensures ListAt(Config(1, 0), RENEWED, 3) == [Item("a", EntryStamped(3, 0, 1))]
  {
    hide ListAt, Apply;
    var c, a, b := Config(1, 0), Item("a", EntryStamped(1, 10, 1)), Item("b", EntryStamped(2, 10, 1));
    NextList(c, RENEWED, 0);
    SetAbsent<string, int>(c, [], "a", 1, Seconds(10), 1);
    assert ListAt(c, RENEWED, 1) == [a];
    NextList(c, RENEWED, 1);
    SetAbsent(c, [a], "b", 2, Seconds(10), 1);
    assert ListAt(c, RENEWED, 2) == [b];
    NextList(c, RENEWED, 2);
    SetAbsent(c, [b], "a", 3, KeepTtl, 1);
  }

  lemma LargeKept()
    ensures ListAt(Config(2, 0), RENEWED, 3) == [Item("b", EntryStamped(2, 10, 1)), Item("a", Entry(3, 10001, 10000))]
  {
    hide ListAt, Apply;
    var c, a, b := Config(2, 0), Item("a", EntryStamped(1, 10, 1)), Item("b", EntryStamped(2, 10, 1));
    NextList(c, RENEWED, 0);
    SetAbsent<string, int>(c, [], "a", 1, Seconds(10), 1);
    assert ListAt(c, RENEWED, 1) == [a];
    NextList(c, RENEWED, 1);
    SetAbsent(c, [a], "b", 2, Seconds(10), 1);
    assert ListAt(c, RENEWED, 2) == [a, b];
    NextList(c, RENEWED, 2);
    SetFirst(c, a, b, 3, 1);
  }

  // KEEPTTL on the first of two items.
  lemma SetFirst<K, V>(c: Config, a: Item<K, V>, b: Item<K, V>, value: V, now: int)
    requires a.key != b.key && c.capacity >= 2
    ensures Apply(c, [a, b], Set(a.key, value, KeepTtl, now)) == [b, Item(a.key, Entry(value, a.entry.expirationTime, a.entry.ttl))]
  {
    hide Keep, Find;
    FoundIff([a, b], a.key);
    WithoutAt([a, b], 0);
    assert [a, b][..0] + [a, b][1..] == [b];
  }

  lemma HitsLast<K, V>(l: List<K, V>, it: Item<K, V>, now: int)
    requires Distinct(l + [it])
    ensures Hit(l + [it], it.key, now) == if ExpiredOnAccess(it.entry, now) then None else Some(it.entry)
  {
    hide Find;
    FindLast(l, it);
  }

  lemma ClockRuns()
    ensures |RENEWED| == 3 && PositiveClock(RENEWED)
  {
  }

  lemma SmallHits()
    ensures Hit(ListAt(Config(1, 0), RENEWED, 3), "a", 20000).Some?
  {
    hide ListAt, Hit;
    var it := Item("a", EntryStamped(3, 0, 1));
    SmallForgot();
    HitsLast([], it, 20000);
    assert [] + [it] == [it];
  }

  lemma LargeMisses()
    ensures Hit(ListAt(Config(2, 0), RENEWED, 3), "a", 20000).None?
  {
    hide ListAt, Hit;
    var b, it := Item("b", EntryStamped(2, 10, 1)), Item("a", Entry(3, 10001, 10000));
    LargeKept();
    HitsLast([b], it, 20000);
    assert [b] + [it] == [b, it];
  }

  // With KEEPTTL inclusion fails: the larger cache keeps an old lifetime that the smaller one, having
  // evicted the entry, replaces by the default, and the smaller cache hits where the larger misses.
  lemma KeepTtlBreaksInclusion() returns (small: Config, large: Config, ops: seq<Op<string, int>>)
    ensures 0 < small.capacity <= large.capacity && small.ttl == large.ttl && PositiveClock(ops)
    ensures Hit(ListAt(small, ops, |ops|), "a", 20000).Some?
    ensures Hit(ListAt(large, ops, |ops|), "a", 20000).None?
  {
    hide *;
    small, large, ops := Config(1, 0), Config(2, 0), RENEWED;
    ClockRuns();
    SmallHits();
    LargeMisses();
  }
}
