// Whole runs of cache operations from an empty cache: what every reachable recency list satisfies,
// why the first item is the least recently used one, how long a touched key survives, and how caches
// of different capacity relate.

module CacheRuns {
  import opened Prelude
  import opened RecencyList

  datatype Op<+K, +V> =
    | Get(key: K, now: int)
    | Set(key: K, value: V, ttl: Ttl, now: int)
    | Has(key: K, now: int)
    | Delete(key: K)
    | Clear
    | Sweep(now: int)

  datatype Config = Config(capacity: nat, ttl: int)

  ghost function Apply<K, V>(c: Config, l: List<K, V>, op: Op<K, V>): List<K, V> {
    match op
    case Get(key, now) => AfterGet(l, key, now)
    case Set(key, value, ttl, now) => AfterSet(l, c.capacity, key, value, ttl, c.ttl, now)
    case Has(key, now) => AfterHas(l, key, now)
    case Delete(key) => Without(l, key)
    case Clear => []
    case Sweep(now) => Swept(l, now)
  }

  ghost function ListAt<K, V>(c: Config, ops: seq<Op<K, V>>, k: nat): List<K, V>
    requires k <= |ops|
  {
    if k == 0 then [] else Apply(c, ListAt(c, ops, k - 1), ops[k - 1])
  }

  // Date.now() is positive whenever an entry is stamped.
  ghost predicate PositiveClock<K, V>(ops: seq<Op<K, V>>) {
    forall k | 0 <= k < |ops| && ops[k].Set? :: ops[k].now > 0
  }

  // ----- every reachable list ---------------------------------------------------------------

  ghost predicate Sound<K, V>(c: Config, l: List<K, V>) {
    && Distinct(l)
    && |l| <= c.capacity
    && forall it | it in l :: Stamped(it.entry)
  }

  lemma AfterTouchSound<K, V>(c: Config, l: List<K, V>, key: K, e: Entry<V>)
    requires Sound(c, l) && Stamped(e)
    ensures Distinct(Touched(l, key, e)) && |Touched(l, key, e)| <= c.capacity + 1
    ensures forall it | it in Touched(l, key, e) :: Stamped(it.entry)
    ensures key in Keys(l) ==> |Touched(l, key, e)| <= c.capacity
  {
    hide Keep;
    TouchedDistinct(l, key, e);
    KeepWithin(l, Other<K, V>(key));
    if key in Keys(l) {
      KeysCounted(l);
      KeysCounted(Touched(l, key, e));
      assert Keys(Touched(l, key, e)) == Keys(l);
    }
  }

  lemma {:induction false} KeepSound<K, V>(c: Config, l: List<K, V>, p: Item<K, V> -> bool)
    requires Sound(c, l)
    ensures Sound(c, Keep(l, p))
  {
    KeepDistinct(l, p);
    KeepWithin(l, p);
  }

  lemma ApplySound<K, V>(c: Config, l: List<K, V>, op: Op<K, V>)
    requires Sound(c, l) && (op.Set? ==> op.now > 0)
    ensures Sound(c, Apply(c, l, op))
  {
    hide Keep, Find;
    match op
    case Get(key, now) =>
      FoundIff(l, key);
      if Hit(l, key, now).Some? {
        AfterTouchSound(c, l, key, Hit(l, key, now).value);
      } else {
        KeepSound(c, l, Other<K, V>(key));
      }
    case Set(key, value, ttl, now) =>
      FoundIff(l, key);
      var found := Find(l, key);
      assert found.Some? ==> Item(key, found.value) in l;
      AfterTouchSound(c, l, key, EntryFor(found, value, ttl, c.ttl, now));
    case Has(key, _) => KeepSound(c, l, Other<K, V>(key));
    case Delete(key) => KeepSound(c, l, Other<K, V>(key));
    case Clear =>
    case Sweep(now) => KeepSound(c, l, Unexpired<K, V>(now));
  }

  // Distinct keys, never more than the capacity, and entries on which the two expiry tests agree.
  lemma {:induction false} AlwaysSound<K, V>(c: Config, ops: seq<Op<K, V>>, k: nat)
    requires k <= |ops| && PositiveClock(ops)
    ensures Sound(c, ListAt(c, ops, k))
    ensures forall it, now | it in ListAt(c, ops, k) :: ExpiredOnAccess(it.entry, now) <==> ExpiredOnSweep(it.entry, now)
  {
    if k > 0 {
      AlwaysSound(c, ops, k - 1);
      ApplySound(c, ListAt(c, ops, k - 1), ops[k - 1]);
    }
  }

  // ----- what a set leaves ------------------------------------------------------------------

  // A value just set is found with its value until its lifetime is over, and not after; without a
  // positive lifetime it never expires.
  lemma SetThenGet<K, V>(c: Config, l: List<K, V>, key: K, value: V, seconds: int, at: int, now: int)
    requires Sound(c, l) && c.capacity > 0 && at > 0
    ensures var hit := Hit(Apply(c, l, Set(key, value, Seconds(seconds), at)), key, now);
            && (hit.Some? <==> seconds <= 0 || now <= at + seconds * 1000)
            && (hit.Some? ==> hit.value.value == value)
  {
    SetIsFound(c, l, key, value, Seconds(seconds), at);
  }

  // KEEPTTL replaces the value and leaves the moment of expiry as it was.
  lemma {:induction false} KeepTtlThenGet<K, V>(c: Config, l: List<K, V>, key: K, value: V, at: int, now: int)
    requires Sound(c, l) && c.capacity > 0 && at > 0 && Find(l, key).Some?
    ensures var hit, was := Hit(Apply(c, l, Set(key, value, KeepTtl, at)), key, now), Hit(l, key, now);
            && (hit.Some? <==> was.Some?)
            && (hit.Some? ==> hit.value == Entry(value, was.value.expirationTime, was.value.ttl))
  {
    SetIsFound(c, l, key, value, KeepTtl, at);
  }

  lemma {:induction false} SetIsFound<K, V>(c: Config, l: List<K, V>, key: K, value: V, ttl: Ttl, at: int)
    requires Sound(c, l) && c.capacity > 0
    ensures Find(Apply(c, l, Set(key, value, ttl, at)), key) == Some(EntryFor(Find(l, key), value, ttl, c.ttl, at))
  {
    var e := EntryFor(Find(l, key), value, ttl, c.ttl, at);
    var t := Touched(l, key, e);
    TouchedDistinct(l, key, e);
    hide Keep, Find, EntryFor;
    var n := |t| - 1;
    assert t[n] == Item(key, e);
    var after := Evicted(t, c.capacity);
    KeepWithin(l, Other<K, V>(key));
    assert after == t || after == t[1..];
    assert after[|after| - 1] == Item(key, e);
    assert Item(key, e) in after;
    FoundIff(after, key);
  }

  // ----- what each operation does to each key ----------------------------------------------

  lemma {:induction false} FindIs<K, V>(l: List<K, V>, key: K)
    requires Distinct(l)
    ensures forall e :: Find(l, key) == Some(e) <==> Item(key, e) in l
  {
    FoundIff(l, key);
  }

  lemma {:induction false} KeepFind<K, V>(l: List<K, V>, p: Item<K, V> -> bool, key: K)
    requires Distinct(l)
    ensures Find(Keep(l, p), key) == if Find(l, key).Some? && p(Item(key, Find(l, key).value)) then Find(l, key) else None
  {
    KeepDistinct(l, p);
    KeepIs(l, p);
    FindIs(l, key);
    FindIs(Keep(l, p), key);
    var kept := Keep(l, p);
    if Find(kept, key).Some? {
      assert Find(kept, key) == Some(Find(kept, key).value);
    }
    if Find(l, key).Some? && p(Item(key, Find(l, key).value)) {
      assert Find(l, key) == Some(Find(l, key).value);
      assert Item(key, Find(l, key).value) in kept;
    }
  }

  lemma {:induction false} KeepIs<K, V>(l: List<K, V>, p: Item<K, V> -> bool)
    ensures forall it :: it in Keep(l, p) <==> it in l && p(it)
  {
    if l != [] {
      KeepIs(l[..|l| - 1], p);
      assert l == l[..|l| - 1] + [l[|l| - 1]];
    }
  }

  // What is left of a key by an operation that is no set: a get or a has that finds it expired drops it,
  // as a delete does; a sweep drops whatever has expired; nothing else is dropped.
  lemma {:induction false} LookupAfter<K, V>(c: Config, l: List<K, V>, op: Op<K, V>, key: K)
    requires Sound(c, l) && !op.Set?
    ensures var was, found := Find(l, key), Find(Apply(c, l, op), key);
            match op
            case Get(k, now) => found == if k == key && was.Some? && was.value.ttl > 0 && now > was.value.expirationTime then None else was
            case Has(k, now) => found == if k == key && was.Some? && was.value.ttl > 0 && now > was.value.expirationTime then None else was
            case Delete(k) => found == if k == key then None else was
            case Clear => found == None
            case Sweep(now) => found == if was.Some? && was.value.expirationTime > 0 && now > was.value.expirationTime then None else was
            case Set(_, _, _, _) => true
  {
    hide Find, Keep;
    match op
    case Get(k, now) =>
      KeepFind(l, Other<K, V>(k), key);
      if Hit(l, k, now).Some? {
        TouchedFind(l, k, Hit(l, k, now).value, key);
      }
    case Has(k, now) => KeepFind(l, Other<K, V>(k), key);
    case Delete(k) => KeepFind(l, Other<K, V>(k), key);
    case Clear => FoundIff<K, V>([], key);
    case Sweep(now) => KeepFind(l, Unexpired<K, V>(now), key);
    case Set(_, _, _, _) =>
  }

  lemma {:induction false} TouchedFind<K, V>(l: List<K, V>, touched: K, e: Entry<V>, key: K)
    requires Distinct(l)
    ensures Find(Touched(l, touched, e), key) == if key == touched then Some(e) else Find(l, key)
  {
    hide Find, Keep;
    var t := Touched(l, touched, e);
    TouchedDistinct(l, touched, e);
    KeepDistinct(l, Other<K, V>(touched));
    KeepFind(l, Other<K, V>(touched), key);
    FindIs(t, key);
    FindIs(Without(l, touched), key);
    assert forall it :: it in t <==> it in Without(l, touched) || it == Item(touched, e);
  }

  // A set leaves every other key as it was, but for the one it pushes out: only a full cache that did
  // not have the key pushes one out, and that is the least recently used.
  lemma {:induction false} LookupAfterSet<K, V>(c: Config, l: List<K, V>, op: Op<K, V>, key: K)
    requires Sound(c, l) && op.Set? && op.now > 0 && op.key != key && c.capacity > 0
    ensures Find(Apply(c, l, op), key) ==
            if |l| == c.capacity && Find(l, op.key).None? && key == l[0].key then None else Find(l, key)
  {
    hide Find, Keep;
    var e := EntryFor(Find(l, op.key), op.value, op.ttl, c.ttl, op.now);
    FindIs(l, op.key);
    assert Stamped(e);
    hide EntryFor;
    var t := Touched(l, op.key, e);
    TouchedDistinct(l, op.key, e);
    TouchedFind(l, op.key, e, key);
    FoundIff(l, op.key);
    AfterTouchSound(c, l, op.key, e);
    if Find(l, op.key).None? {
      WithoutAbsent(l, op.key);
      assert t == l + [Item(op.key, e)];
    }
    if |t| > c.capacity {
      TailFind(t, key);
    }
  }

  lemma {:induction false} TailFind<K, V>(l: List<K, V>, key: K)
    requires Distinct(l) && l != []
    ensures Find(l[1..], key) == if l[0].key == key then None else Find(l, key)
  {
    var tail := l[1..];
    assert forall i, j | 0 <= i < j < |tail| :: tail[i] == l[i + 1] && tail[j] == l[j + 1];
    FindIs(tail, key);
  }

  // ----- recency ----------------------------------------------------------------------------

  // A key is touched by a set and by a get that hits; has() does not count.
  ghost predicate Touches<K, V>(c: Config, ops: seq<Op<K, V>>, k: nat, key: K)
    requires k < |ops|
  {
    match ops[k]
    case Set(written, _, _, _) => written == key
    case Get(got, now) => got == key && Hit(ListAt(c, ops, k), key, now).Some?
    case _ => false
  }

  // When `key` was last touched among the first k operations; 0 for never.
  ghost function LastTouch<K, V>(c: Config, ops: seq<Op<K, V>>, k: nat, key: K): nat
    requires k <= |ops|
  {
    if k == 0 then 0
    else if Touches(c, ops, k - 1, key) then k
    else LastTouch(c, ops, k - 1, key)
  }

  ghost predicate ByLastTouch<K, V>(c: Config, ops: seq<Op<K, V>>, k: nat, l: List<K, V>)
    requires k <= |ops|
  {
    forall i, j | 0 <= i < j < |l| :: LastTouch(c, ops, k, l[i].key) < LastTouch(c, ops, k, l[j].key)
  }

  lemma {:induction false} KeepByLastTouch<K, V>(c: Config, ops: seq<Op<K, V>>, k: nat, l: List<K, V>, p: Item<K, V> -> bool)
    requires k <= |ops| && ByLastTouch(c, ops, k, l)
    ensures ByLastTouch(c, ops, k, Keep(l, p))
  {
    if l != [] {
      hide LastTouch;
      var front, last := l[..|l| - 1], l[|l| - 1];
      KeepByLastTouch(c, ops, k, front, p);
      KeepWithin(front, p);
      forall it | it in front ensures LastTouch(c, ops, k, it.key) < LastTouch(c, ops, k, last.key) {
        var i :| 0 <= i < |front| && front[i] == it;
        assert LastTouch(c, ops, k, l[i].key) < LastTouch(c, ops, k, l[|l| - 1].key);
      }
      assert forall i | 0 <= i < |Keep(front, p)| :: Keep(front, p)[i] in front;
    }
  }

  lemma {:induction false} LastTouchBound<K, V>(c: Config, ops: seq<Op<K, V>>, k: nat, key: K)
    requires k <= |ops|
    ensures LastTouch(c, ops, k, key) <= k
  {
    if k > 0 && !Touches(c, ops, k - 1, key) {
      LastTouchBound(c, ops, k - 1, key);
    }
  }

  lemma TouchedByLastTouch<K, V>(c: Config, ops: seq<Op<K, V>>, k: nat, l: List<K, V>, key: K, e: Entry<V>)
    requires k < |ops| && ByLastTouch(c, ops, k, l)
    requires Touches(c, ops, k, key) && forall other | other != key :: !Touches(c, ops, k, other)
    ensures ByLastTouch(c, ops, k + 1, Touched(l, key, e))
  {
    hide Keep;
    var rest := Without(l, key);
    KeepByLastTouch(c, ops, k, l, Other<K, V>(key));
    KeepWithin(l, Other<K, V>(key));
    forall i | 0 <= i < |rest|
      ensures LastTouch(c, ops, k + 1, rest[i].key) == LastTouch(c, ops, k, rest[i].key) <= k
    {
      assert rest[i] in rest;
      LastTouchBound(c, ops, k, rest[i].key);
    }
    assert LastTouch(c, ops, k + 1, key) == k + 1;
  }

  // An operation that touches no key drops items and moves none.
  lemma QuietByLastTouch<K, V>(c: Config, ops: seq<Op<K, V>>, k: nat)
    requires k < |ops| && ByLastTouch(c, ops, k, ListAt(c, ops, k)) && !ops[k].Set?
    requires ops[k].Get? ==> Hit(ListAt(c, ops, k), ops[k].key, ops[k].now).None?
    ensures ByLastTouch(c, ops, k, ListAt(c, ops, k + 1))
  {
    hide Keep, Find, LastTouch;
    var l := ListAt(c, ops, k);
    match ops[k]
    case Set(_, _, _, _) =>
    case Get(key, _) => KeepByLastTouch(c, ops, k, l, Other<K, V>(key));
    case Has(key, _) => KeepByLastTouch(c, ops, k, l, Other<K, V>(key));
    case Delete(key) => KeepByLastTouch(c, ops, k, l, Other<K, V>(key));
    case Clear =>
    case Sweep(now) => KeepByLastTouch(c, ops, k, l, Unexpired<K, V>(now));
  }

  lemma QuietTouches<K, V>(c: Config, ops: seq<Op<K, V>>, k: nat, l: List<K, V>)
    requires k < |ops| && ByLastTouch(c, ops, k, l) && forall key :: !Touches(c, ops, k, key)
    ensures ByLastTouch(c, ops, k + 1, l)
  {
    hide Touches;
  }

  lemma {:induction false} NoTouch<K, V>(c: Config, ops: seq<Op<K, V>>, k: nat)
    requires k < |ops| && !ops[k].Set? && (ops[k].Get? ==> Hit(ListAt(c, ops, k), ops[k].key, ops[k].now).None?)
    ensures forall key :: !Touches(c, ops, k, key)
  {
    hide Hit, ListAt;
  }

  lemma {:induction false} NothingTouched<K, V>(c: Config, ops: seq<Op<K, V>>)
    ensures ByLastTouch(c, ops, 0, ListAt(c, ops, 0))
  {
  }

  lemma SetByLastTouch<K, V>(c: Config, ops: seq<Op<K, V>>, k: nat)
    requires k < |ops| && ByLastTouch(c, ops, k, ListAt(c, ops, k)) && ops[k].Set?
    ensures ByLastTouch(c, ops, k + 1, ListAt(c, ops, k + 1))
  {
    hide Keep, Find, LastTouch, EntryFor;
    var l, op := ListAt(c, ops, k), ops[k];
    var e := EntryFor(Find(l, op.key), op.value, op.ttl, c.ttl, op.now);
    TouchedByLastTouch(c, ops, k, l, op.key, e);
    assert ListAt(c, ops, k + 1) == Evicted(Touched(l, op.key, e), c.capacity);
    hide Touched, ListAt;
  }

  lemma HitByLastTouch<K, V>(c: Config, ops: seq<Op<K, V>>, k: nat)
    requires k < |ops| && ByLastTouch(c, ops, k, ListAt(c, ops, k))
    requires ops[k].Get? && Hit(ListAt(c, ops, k), ops[k].key, ops[k].now).Some?
    ensures ByLastTouch(c, ops, k + 1, ListAt(c, ops, k + 1))
  {
    hide Keep, Find, LastTouch, ByLastTouch;
    var l := ListAt(c, ops, k);
    TouchedByLastTouch(c, ops, k, l, ops[k].key, Hit(l, ops[k].key, ops[k].now).value);
  }

  // The recency list is in order of last touch, whatever was evicted, deleted or swept meanwhile.
  lemma {:induction false} RecencyOrder<K, V>(c: Config, ops: seq<Op<K, V>>, k: nat)
    requires k <= |ops|
    ensures ByLastTouch(c, ops, k, ListAt(c, ops, k))
  {
    hide *;
    if k > 0 {
      RecencyOrder(c, ops, k - 1);
      if ops[k - 1].Set? {
        SetByLastTouch(c, ops, k - 1);
      } else if ops[k - 1].Get? && Hit(ListAt(c, ops, k - 1), ops[k - 1].key, ops[k - 1].now).Some? {
        HitByLastTouch(c, ops, k - 1);
      } else {
        QuietByLastTouch(c, ops, k - 1);
        NoTouch(c, ops, k - 1);
        QuietTouches(c, ops, k - 1, ListAt(c, ops, k));
      }
    } else {
      NothingTouched(c, ops);
    }
  }

  // What a set pushes out was touched less recently than everything that stays.
  lemma EvictsLeastRecentlyUsed<K, V>(c: Config, ops: seq<Op<K, V>>, k: nat, victim: K, kept: K)
    requires k < |ops| && ops[k].Set? && c.capacity > 0
    requires victim in Keys(ListAt(c, ops, k)) && victim !in Keys(ListAt(c, ops, k + 1))
    requires kept in Keys(ListAt(c, ops, k + 1))
    ensures LastTouch(c, ops, k + 1, victim) < LastTouch(c, ops, k + 1, kept)
  {
    var l, op := ListAt(c, ops, k), ops[k];
    var e := EntryFor(Find(l, op.key), op.value, op.ttl, c.ttl, op.now);
    var all := Touched(l, op.key, e);
    RecencyOrder(c, ops, k);
    TouchedByLastTouch(c, ops, k, l, op.key, e);
    assert all[|Without(l, op.key)|] == Item(op.key, e);
    assert ListAt(c, ops, k + 1) == Evicted(all, c.capacity);
    hide Keep, Find, LastTouch, ListAt, EntryFor;
    var it :| it in l && it.key == victim;
    if victim != op.key {
      KeepMember(l, Other<K, V>(op.key), it);
      assert it in all;
    }
    var i :| 0 <= i < |all| && all[i].key == victim;
    assert all[1..] == Evicted(all, c.capacity);
    forall m | 1 <= m < |all| ensures all[m] in all[1..] {
      assert all[1..][m - 1] == all[m];
    }
    var j :| 0 <= j < |all[1..]| && all[1..][j].key == kept;
    assert all[j + 1].key == kept;
  }

  // ----- survival ---------------------------------------------------------------------------

  // Keys other than `key` touched by the operations from i up to k.
  ghost function OthersTouched<K, V>(c: Config, ops: seq<Op<K, V>>, i: nat, k: nat, key: K): set<K>
    requires i <= k <= |ops|
    decreases k
  {
    if k == i then {}
    else
      OthersTouched(c, ops, i, k - 1, key)
      + (if ops[k - 1].Set? && ops[k - 1].key != key then {ops[k - 1].key}
         else if ops[k - 1].Get? && ops[k - 1].key != key && Touches(c, ops, k - 1, ops[k - 1].key) then {ops[k - 1].key}
         else {})
  }

  // The operation neither deletes `key` nor meets it expired.
  ghost predicate Spares<K, V>(l: List<K, V>, op: Op<K, V>, key: K) {
    match op
    case Get(k, now) => k == key ==> Hit(l, key, now).Some?
    case Has(k, now) => k == key ==> Hit(l, key, now).Some?
    case Set(_, _, _, _) => true
    case Delete(k) => k != key
    case Clear => false
    case Sweep(now) => Find(l, key).Some? && !ExpiredOnSweep(Find(l, key).value, now)
  }

  // `key` is in the list and everything behind it is in `behind`.
  ghost predicate InFrontOf<K, V>(l: List<K, V>, key: K, behind: set<K>) {
    exists i :: 0 <= i < |l| && l[i].key == key && forall j | i < j < |l| :: l[j].key in behind
  }

  lemma {:induction false} KeepInFrontOf<K, V>(l: List<K, V>, p: Item<K, V> -> bool, key: K, behind: set<K>)
    requires Distinct(l) && InFrontOf(l, key, behind)
    requires forall it | it in l && it.key == key :: p(it)
    ensures InFrontOf(Keep(l, p), key, behind)
  {
    var i :| 0 <= i < |l| && l[i].key == key && forall j | i < j < |l| :: l[j].key in behind;
    var front, last := l[..|l| - 1], l[|l| - 1];
    if i == |l| - 1 {
      var kept := Keep(l, p);
      assert kept[|kept| - 1] == last;
    } else {
      assert front[i].key == key && forall j | i < j < |front| :: front[j].key in behind;
      KeepInFrontOf(front, p, key, behind);
      var kept := Keep(front, p);
      var m :| 0 <= m < |kept| && kept[m].key == key && forall j | m < j < |kept| :: kept[j].key in behind;
      assert Keep(l, p)[m].key == key;
      assert last.key in behind;
    }
  }

  lemma TouchedInFrontOf<K, V>(l: List<K, V>, touched: K, e: Entry<V>, key: K, behind: set<K>)
    requires Distinct(l) && InFrontOf(l, key, behind) && touched != key
    ensures InFrontOf(Touched(l, touched, e), key, behind + {touched})
  {
    KeepInFrontOf(l, Other<K, V>(touched), key, behind);
    var kept := Without(l, touched);
    var i :| 0 <= i < |kept| && kept[i].key == key && forall j | i < j < |kept| :: kept[j].key in behind;
    hide Keep;
    var t := Touched(l, touched, e);
    assert t[i].key == key;
    assert forall j | i < j < |t| :: t[j].key in behind + {touched};
  }

  lemma LastInFrontOf<K, V>(l: List<K, V>, key: K, e: Entry<V>, behind: set<K>)
    ensures InFrontOf(Touched(l, key, e), key, behind)
  {
    hide Keep;
    assert Touched(l, key, e)[|Without(l, key)|].key == key;
  }

  // An eviction that would take `key` needs a full list behind it.
  lemma EvictedInFrontOf<K, V>(l: List<K, V>, capacity: nat, key: K, behind: set<K>)
    requires Distinct(l) && InFrontOf(l, key, behind) && key !in behind && |behind| < capacity
    ensures InFrontOf(Evicted(l, capacity), key, behind)
  {
    var i :| 0 <= i < |l| && l[i].key == key && forall j | i < j < |l| :: l[j].key in behind;
    if |l| > capacity {
      if i == 0 {
        var tail := l[1..];
        forall j | 0 <= j < |tail| ensures tail[j].key in behind {
          assert tail[j] == l[j + 1];
        }
        KeysCounted(tail);
        SubsetCounted(Keys(tail), behind);
        assert false;
      }
      assert l[1..][i - 1].key == key;
      assert forall j | i - 1 < j < |l[1..]| :: l[1..][j] == l[j + 1];
    }
  }

  lemma {:induction false} SubsetCounted<K>(a: set<K>, b: set<K>)
    requires a <= b
    ensures |a| <= |b|
  {
    if a != {} {
      var x :| x in a;
      SubsetCounted(a - {x}, b - {x});
    }
  }

  ghost predicate SparedBetween<K, V>(c: Config, ops: seq<Op<K, V>>, i: nat, k: nat, key: K)
    requires k <= |ops|
  {
    forall m | i < m < k :: Spares(ListAt(c, ops, m), ops[m], key)
  }

  // Survival: a touched key is still there as long as fewer than `capacity` other keys were touched
  // since and nothing deleted it or met it expired.
  lemma {:induction false} TouchedKeySurvives<K, V>(c: Config, ops: seq<Op<K, V>>, i: nat, k: nat, key: K)
    requires PositiveClock(ops) && i < k <= |ops| && Touches(c, ops, i, key)
    requires SparedBetween(c, ops, i, k, key)
    requires |OthersTouched(c, ops, i + 1, k, key)| < c.capacity
    ensures InFrontOf(ListAt(c, ops, k), key, OthersTouched(c, ops, i + 1, k, key))
    ensures key in Keys(ListAt(c, ops, k))
    decreases k
  {
    hide Apply, Spares, Touches, Sound, PositiveClock, ListAt, Keys, InFrontOf, OthersTouched;
    var others := OthersTouched(c, ops, i + 1, k, key);
    NotAmongOthers(c, ops, i + 1, k, key);
    if k == i + 1 {
      SurvivesOneTouch(c, ops, i, key, others);
    } else {
      OthersGrow(c, ops, i + 1, k, key);
      TouchedKeySurvives(c, ops, i, k - 1, key);
      AlwaysSound(c, ops, k - 1);
      assert Spares(ListAt(c, ops, k - 1), ops[k - 1], key);
      SurvivesOneStep(c, ops, i + 1, k, key);
    }
    InFrontIsIn(ListAt(c, ops, k), key, others);
  }

  lemma InFrontIsIn<K, V>(l: List<K, V>, key: K, behind: set<K>)
    requires InFrontOf(l, key, behind)
    ensures key in Keys(l)
  {
    var i :| 0 <= i < |l| && l[i].key == key && forall j | i < j < |l| :: l[j].key in behind;
    assert l[i] in l;
  }

  lemma OthersGrow<K, V>(c: Config, ops: seq<Op<K, V>>, i: nat, k: nat, key: K)
    requires i < k <= |ops|
    ensures |OthersTouched(c, ops, i, k - 1, key)| <= |OthersTouched(c, ops, i, k, key)|
  {
    SubsetCounted(OthersTouched(c, ops, i, k - 1, key), OthersTouched(c, ops, i, k, key));
  }

  lemma {:induction false} NotAmongOthers<K, V>(c: Config, ops: seq<Op<K, V>>, i: nat, k: nat, key: K)
    requires i <= k <= |ops|
    ensures key !in OthersTouched(c, ops, i, k, key)
    decreases k
  {
    if i < k {
      NotAmongOthers(c, ops, i, k - 1, key);
    }
  }

  lemma {:induction false} SurvivesOneTouch<K, V>(c: Config, ops: seq<Op<K, V>>, k: nat, key: K, behind: set<K>)
    requires PositiveClock(ops) && k < |ops| && Touches(c, ops, k, key)
    requires key !in behind && |behind| < c.capacity
    ensures InFrontOf(ListAt(c, ops, k + 1), key, behind)
  {
    hide Keep, Find;
    var l, op := ListAt(c, ops, k), ops[k];
    AlwaysSound(c, ops, k);
    match op
    case Get(_, now) => LastInFrontOf(l, key, Hit(l, key, now).value, behind);
    case Set(_, value, ttl, now) =>
      var e := EntryFor(Find(l, key), value, ttl, c.ttl, now);
      LastInFrontOf(l, key, e, behind);
      TouchedDistinct(l, key, e);
      EvictedInFrontOf(Touched(l, key, e), c.capacity, key, behind);
  }

  // A set of another key.
  lemma SurvivesOneSet<K, V>(c: Config, l: List<K, V>, op: Op<K, V>, key: K, before: set<K>)
    requires Sound(c, l) && op.Set? && op.key != key && InFrontOf(l, key, before)
    requires key !in before && |before + {op.key}| < c.capacity
    ensures InFrontOf(Apply(c, l, op), key, before + {op.key})
  {
    hide Keep, Find, EntryFor, InFrontOf;
    var e := EntryFor(Find(l, op.key), op.value, op.ttl, c.ttl, op.now);
    TouchedInFrontOf(l, op.key, e, key, before);
    TouchedDistinct(l, op.key, e);
    EvictedInFrontOf(Touched(l, op.key, e), c.capacity, key, before + {op.key});
  }

  // A hit of another key.
  lemma SurvivesOneHit<K, V>(c: Config, l: List<K, V>, op: Op<K, V>, key: K, before: set<K>)
    requires Sound(c, l) && op.Get? && op.key != key && Hit(l, op.key, op.now).Some? && InFrontOf(l, key, before)
    ensures InFrontOf(Apply(c, l, op), key, before + {op.key})
  {
    hide Keep, Find, InFrontOf;
    TouchedInFrontOf(l, op.key, Hit(l, op.key, op.now).value, key, before);
  }

  // Anything else that touches no key and spares this one.
  lemma SurvivesOneDrop<K, V>(c: Config, l: List<K, V>, op: Op<K, V>, key: K, before: set<K>)
    requires Sound(c, l) && !op.Set? && (op.Get? ==> Hit(l, op.key, op.now).None?)
    requires Spares(l, op, key) && InFrontOf(l, key, before)
    ensures InFrontOf(Apply(c, l, op), key, before)
  {
    FoundIff(l, key);
    hide Keep, Find, InFrontOf;
    match op
    case Set(_, _, _, _) =>
    case Get(other, now) => KeepInFrontOf(l, Other<K, V>(other), key, before);
    case Has(other, now) =>
      if Hit(l, other, now).None? {
        KeepInFrontOf(l, Other<K, V>(other), key, before);
      }
    case Delete(other) => KeepInFrontOf(l, Other<K, V>(other), key, before);
    case Clear =>
    case Sweep(now) => KeepInFrontOf(l, Unexpired<K, V>(now), key, before);
  }

  lemma SurvivesOneStep<K, V>(c: Config, ops: seq<Op<K, V>>, i: nat, k: nat, key: K)
    requires PositiveClock(ops) && i < k <= |ops| && Sound(c, ListAt(c, ops, k - 1))
    requires Spares(ListAt(c, ops, k - 1), ops[k - 1], key)
    requires InFrontOf(ListAt(c, ops, k - 1), key, OthersTouched(c, ops, i, k - 1, key))
    requires |OthersTouched(c, ops, i, k, key)| < c.capacity
    ensures InFrontOf(ListAt(c, ops, k), key, OthersTouched(c, ops, i, k, key))
  {
    NotAmongOthers(c, ops, i, k, key);
    hide Keep, Find, InFrontOf, Sound, Spares;
    var before := OthersTouched(c, ops, i, k - 1, key);
    var l, op := ListAt(c, ops, k - 1), ops[k - 1];
    if Touches(c, ops, k - 1, key) {
      SurvivesOneTouch(c, ops, k - 1, key, OthersTouched(c, ops, i, k, key));
    } else if op.Set? {
      SurvivesOneSet(c, l, op, key, before);
    } else if op.Get? && Hit(l, op.key, op.now).Some? {
      SurvivesOneHit(c, l, op, key, before);
    } else {
      SurvivesOneDrop(c, l, op, key, before);
    }
  }

  lemma NextList<K, V>(c: Config, ops: seq<Op<K, V>>, k: nat)
    requires k < |ops|
    ensures ListAt(c, ops, 0) == [] && ListAt(c, ops, k + 1) == Apply(c, ListAt(c, ops, k), ops[k])
  {
  }

  // A cache of two, at work on entries that never expire.
  lemma CacheOfTwo<K, V>(a: K, b: K, x: K, v: V, now: int)
    requires a != b && a != x && b != x
    ensures var c, e := Config(2, 0), Entry(v, 0, 0);
            && Apply(c, [], Set(a, v, Seconds(0), now)) == [Item(a, e)]
            && Apply(c, [Item(a, e)], Set(b, v, Seconds(0), now)) == [Item(a, e), Item(b, e)]
            && Apply(c, [Item(a, e), Item(b, e)], Get(a, now)) == [Item(b, e), Item(a, e)]
            && Apply(c, [Item(b, e), Item(a, e)], Set(x, v, Seconds(0), now)) == [Item(a, e), Item(x, e)]
  {
    var ia, ib := Item(a, Entry(v, 0, 0)), Item(b, Entry(v, 0, 0));
    hide Keep;
    WithoutAbsent([ia], b);
    WithoutAt([ia, ib], 0);
    assert [ia, ib][..0] + [ia, ib][1..] == [ib];
    WithoutAbsent([ib, ia], x);
    WithoutAbsent<K, V>([], a);
    assert [ib, ia, Item(x, Entry(v, 0, 0))][1..] == [ia, Item(x, Entry(v, 0, 0))];
  }

  // Hits of other keys count as much as sets: here a single key is set after "k" was touched, in a
  // cache of two, and "k" is gone.
  lemma HitsPushOutToo() returns (ops: seq<Op<string, int>>)
    ensures |ops| == 4 && PositiveClock(ops) && Touches(Config(2, 0), ops, 1, "k")
    ensures ops[2].Get? && ops[3].Set? && SparedBetween(Config(2, 0), ops, 1, 4, "k")
    ensures "k" !in Keys(ListAt(Config(2, 0), ops, 4))
  {
    hide Apply, Keep, Find, ListAt;
    var c, e := Config(2, 0), Entry(1, 0, 0);
    ops := [Set("a", 1, Seconds(0), 1), Set("k", 1, Seconds(0), 1), Get("a", 1), Set("c", 1, Seconds(0), 1)];
    CacheOfTwo("a", "k", "c", 1, 1);
    NextList(c, ops, 0);
    assert ListAt(c, ops, 1) == [Item("a", e)];
    NextList(c, ops, 1);
    assert ListAt(c, ops, 2) == [Item("a", e), Item("k", e)];
    NextList(c, ops, 2);
    assert ListAt(c, ops, 3) == [Item("k", e), Item("a", e)];
    NextList(c, ops, 3);
    assert ListAt(c, ops, 4) == [Item("a", e), Item("c", e)];
  }
}
