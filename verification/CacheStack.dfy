// The exact condition for survival. As long as nothing is deleted or met expired, a key is in the
// cache if and only if fewer than `capacity` other keys were touched since its own last touch.

module CacheStack {
  import opened Prelude
  import opened RecencyList
  import opened CacheRuns

  // The operation removes nothing but, if it is a set, what it evicts.
  ghost predicate DropsNothing<K, V>(l: List<K, V>, op: Op<K, V>) {
    match op
    case Get(key, now) => Find(l, key).Some? ==> Hit(l, key, now).Some?
    case Has(key, now) => Find(l, key).Some? ==> Hit(l, key, now).Some?
    case Set(_, _, _, _) => true
    case Delete(key) => key !in Keys(l)
    case Clear => l == []
    case Sweep(now) => forall it | it in l :: !ExpiredOnSweep(it.entry, now)
  }

  ghost predicate NothingDropped<K, V>(c: Config, ops: seq<Op<K, V>>, i: nat, k: nat)
    requires k <= |ops|
  {
    forall m | i < m < k :: DropsNothing(ListAt(c, ops, m), ops[m])
  }

  // Step i touches the key and no later one does.
  ghost predicate LastTouched<K, V>(c: Config, ops: seq<Op<K, V>>, i: nat, k: nat, key: K)
    requires i < k <= |ops|
  {
    Touches(c, ops, i, key) && forall m | i < m < k :: !Touches(c, ops, m, key)
  }

  // ----- order ------------------------------------------------------------------------------

  // Somewhere the list splits into a part with `key` and a later part with `other`.
  ghost predicate Precedes<K, V>(l: List<K, V>, key: K, other: K) {
    exists n | 0 <= n <= |l| :: key in Keys(l[..n]) && other in Keys(l[n..])
  }

  lemma KeptIn<K, V>(l: List<K, V>, x: K, key: K)
    requires key in Keys(l) && key != x
    ensures key in Keys(Without(l, x))
  {
    hide Keep;
    var it :| it in l && it.key == key;
    KeepMember(l, Other<K, V>(x), it);
  }

  // Touching another key keeps the order and puts that key last.
  lemma TouchedPrecedes<K, V>(l: List<K, V>, x: K, e: Entry<V>, key: K, other: K)
    requires x != key && key in Keys(l) && (other == x || Precedes(l, key, other))
    ensures Precedes(Touched(l, x, e), key, other)
  {
    hide Keep;
    var t := Touched(l, x, e);
    if other == x {
      var n := |Without(l, x)|;
      assert t[..n] == Without(l, x) && t[n..] == [Item(x, e)];
      KeptIn(l, x, key);
    } else {
      var n :| 0 <= n <= |l| && key in Keys(l[..n]) && other in Keys(l[n..]);
      var a, b := Without(l[..n], x), Without(l[n..], x);
      assert l == l[..n] + l[n..];
      KeepAppend(l[..n], l[n..], Other<K, V>(x));
      KeptIn(l[..n], x, key);
      KeptIn(l[n..], x, other);
      assert t == a + (b + [Item(x, e)]);
      assert t[..|a|] == a && t[|a|..] == b + [Item(x, e)];
    }
  }

  lemma AtIndex<K, V>(l: List<K, V>, key: K) returns (m: nat)
    requires key in Keys(l)
    ensures m < |l| && l[m].key == key
  {
    var it :| it in l && it.key == key;
    m :| 0 <= m < |l| && l[m] == it;
  }

  lemma IndexIn<K, V>(l: List<K, V>, n: nat, m: nat)
    requires m < n <= |l|
    ensures l[m].key in Keys(l[..n])
  {
    assert l[..n][m] == l[m];
    assert l[..n][m] in l[..n];
  }

  // An eviction takes the first item; what comes after a key that stays has stayed as well.
  lemma EvictedPrecedes<K, V>(l: List<K, V>, capacity: nat, key: K, other: K)
    requires Distinct(l) && Precedes(l, key, other) && key in Keys(Evicted(l, capacity))
    ensures Precedes(Evicted(l, capacity), key, other)
  {
    if |l| > capacity {
      hide Keys;
      var n :| 0 <= n <= |l| && key in Keys(l[..n]) && other in Keys(l[n..]);
      var tail := l[1..];
      var m := AtIndex(l[..n], key);
      var j := AtIndex(tail, key);
      assert l[m].key == l[j + 1].key;
      assert m == j + 1;
      IndexIn(tail, n - 1, j);
      assert tail[n - 1..] == l[n..];
    }
  }

  // Every one of these keys is in the list, behind `key`.
  ghost predicate AllBehind<K, V>(l: List<K, V>, key: K, others: set<K>) {
    forall other | other in others :: Precedes(l, key, other)
  }

  lemma PrecedesIsIn<K, V>(l: List<K, V>, key: K, other: K)
    requires Precedes(l, key, other)
    ensures other in Keys(l)
  {
    var n :| 0 <= n <= |l| && key in Keys(l[..n]) && other in Keys(l[n..]);
    var it :| it in l[n..] && it.key == other;
    assert it in l;
  }

  // ----- one step ---------------------------------------------------------------------------

  // An operation that drops nothing and touches nothing leaves the list as it is.
  lemma Unchanged<K, V>(c: Config, ops: seq<Op<K, V>>, k: nat)
    requires k < |ops| && DropsNothing(ListAt(c, ops, k), ops[k]) && !ops[k].Set?
    requires ops[k].Get? ==> !Touches(c, ops, k, ops[k].key)
    ensures ListAt(c, ops, k + 1) == ListAt(c, ops, k)
  {
    var l := ListAt(c, ops, k);
    hide Keep;
    match ops[k]
    case Get(key, _) => FoundIff(l, key); WithoutAbsent(l, key);
    case Has(key, now) => FoundIff(l, key); if Hit(l, key, now).None? { WithoutAbsent(l, key); }
    case Delete(key) => WithoutAbsent(l, key);
    case Clear =>
    case Sweep(now) => KeepAll(l, Unexpired<K, V>(now));
  }

  lemma TouchStep<K, V>(c: Config, l: List<K, V>, x: K, e: Entry<V>, key: K, others: set<K>)
    requires Distinct(l) && x != key && key in Keys(l) && AllBehind(l, key, others)
    ensures AllBehind(Touched(l, x, e), key, others + {x}) && Distinct(Touched(l, x, e))
    ensures key in Keys(Evicted(Touched(l, x, e), c.capacity)) ==> AllBehind(Evicted(Touched(l, x, e), c.capacity), key, others + {x})
  {
    hide Keep, Precedes, Evicted;
    TouchedDistinct(l, x, e);
    forall other | other in others + {x} ensures Precedes(Touched(l, x, e), key, other) {
      TouchedPrecedes(l, x, e, key, other);
    }
    if key in Keys(Evicted(Touched(l, x, e), c.capacity)) {
      forall other | other in others + {x} ensures Precedes(Evicted(Touched(l, x, e), c.capacity), key, other) {
        EvictedPrecedes(Touched(l, x, e), c.capacity, key, other);
      }
    }
  }

  lemma EvictedWasIn<K, V>(l: List<K, V>, capacity: nat, key: K)
    requires key in Keys(Evicted(l, capacity))
    ensures key in Keys(l)
  {
    var it :| it in Evicted(l, capacity) && it.key == key;
    assert it in l;
  }

  // A key that is there after a step that did not touch it was there before.
  lemma WasThere<K, V>(c: Config, ops: seq<Op<K, V>>, k: nat, key: K)
    requires PositiveClock(ops) && k < |ops| && DropsNothing(ListAt(c, ops, k), ops[k])
    requires !Touches(c, ops, k, key) && key in Keys(ListAt(c, ops, k + 1))
    ensures key in Keys(ListAt(c, ops, k))
  {
    var l, op := ListAt(c, ops, k), ops[k];
    AlwaysSound(c, ops, k);
    if op.Set? {
      var e := EntryFor(Find(l, op.key), op.value, op.ttl, c.ttl, op.now);
      hide Keep, EntryFor, Find;
      TouchedDistinct(l, op.key, e);
      EvictedWasIn(Touched(l, op.key, e), c.capacity, key);
    } else if op.Get? && Touches(c, ops, k, op.key) {
      TouchedDistinct(l, op.key, Hit(l, op.key, op.now).value);
    } else {
      Unchanged(c, ops, k);
    }
  }

  lemma StepBehind<K, V>(c: Config, ops: seq<Op<K, V>>, i: nat, k: nat, key: K)
    requires PositiveClock(ops) && i <= k < |ops| && DropsNothing(ListAt(c, ops, k), ops[k])
    requires !Touches(c, ops, k, key) && key in Keys(ListAt(c, ops, k + 1)) && key in Keys(ListAt(c, ops, k))
    requires AllBehind(ListAt(c, ops, k), key, OthersTouched(c, ops, i, k, key))
    ensures AllBehind(ListAt(c, ops, k + 1), key, OthersTouched(c, ops, i, k + 1, key))
  {
    hide Keep, AllBehind, EntryFor, Find, OthersTouched, ListAt, Sound;
    var l, op := ListAt(c, ops, k), ops[k];
    OneMoreTouched(c, ops, i, k, key);
    if op.Set? || (op.Get? && Touches(c, ops, k, op.key)) {
      ListStep(c, ops, k);
      AlwaysSound(c, ops, k);
      TouchBehind(c, l, op, key, OthersTouched(c, ops, i, k, key));
    } else {
      Unchanged(c, ops, k);
      assert OthersTouched(c, ops, i, k, key) + {} == OthersTouched(c, ops, i, k, key);
    }
  }

  lemma ListStep<K, V>(c: Config, ops: seq<Op<K, V>>, k: nat)
    requires k < |ops|
    ensures ListAt(c, ops, k + 1) == Apply(c, ListAt(c, ops, k), ops[k])
  {
  }

  lemma OneMoreTouched<K, V>(c: Config, ops: seq<Op<K, V>>, i: nat, k: nat, key: K)
    requires i <= k < |ops| && !Touches(c, ops, k, key)
    ensures OthersTouched(c, ops, i, k + 1, key) ==
            OthersTouched(c, ops, i, k, key) +
            if ops[k].Set? || (ops[k].Get? && Touches(c, ops, k, ops[k].key)) then {ops[k].key} else {}
  {
    hide ListAt, Hit;
  }

  // The touch of another key, seen from the list alone.
  lemma TouchBehind<K, V>(c: Config, l: List<K, V>, op: Op<K, V>, key: K, others: set<K>)
    requires Sound(c, l) && key in Keys(l) && AllBehind(l, key, others) && key in Keys(Apply(c, l, op))
    requires (op.Set? || (op.Get? && Hit(l, op.key, op.now).Some?)) && op.key != key
    ensures AllBehind(Apply(c, l, op), key, others + {op.key})
  {
    hide Keep, AllBehind, EntryFor, Find, Hit, Keys;
    match op
    case Set(x, value, ttl, now) => TouchStep(c, l, x, EntryFor(Find(l, x), value, ttl, c.ttl, now), key, others);
    case Get(x, now) => TouchStep(c, l, x, Hit(l, x, now).value, key, others);
    case _ =>
  }

  // ----- runs -------------------------------------------------------------------------------

  lemma {:induction false} PresentMeansBehind<K, V>(c: Config, ops: seq<Op<K, V>>, i: nat, k: nat, key: K)
    requires PositiveClock(ops) && i < k <= |ops| && LastTouched(c, ops, i, k, key) && NothingDropped(c, ops, i, k)
    requires key in Keys(ListAt(c, ops, k))
    ensures AllBehind(ListAt(c, ops, k), key, OthersTouched(c, ops, i + 1, k, key))
    decreases k
  {
    hide ListAt, Touches, DropsNothing, AllBehind, Keys;
    if k > i + 1 {
      assert DropsNothing(ListAt(c, ops, k - 1), ops[k - 1]) && !Touches(c, ops, k - 1, key);
      WasThere(c, ops, k - 1, key);
      PresentMeansBehind(c, ops, i, k - 1, key);
      StepBehind(c, ops, i + 1, k - 1, key);
    } else {
      NoneBehind(ListAt(c, ops, k), key);
    }
  }

  lemma NoneBehind<K, V>(l: List<K, V>, key: K)
    ensures AllBehind(l, key, {})
  {
  }

  lemma BehindFits<K, V>(c: Config, l: List<K, V>, key: K, others: set<K>)
    requires Sound(c, l) && key in Keys(l) && key !in others && AllBehind(l, key, others)
    ensures |others| < c.capacity
  {
    hide Precedes;
    forall other | other in others ensures other in Keys(l) {
      PrecedesIsIn(l, key, other);
    }
    KeysCounted(l);
    SubsetCounted(others + {key}, Keys(l));
  }

  // Under these conditions no operation deletes the key or meets it expired.
  lemma {:induction false} StaysSpared<K, V>(c: Config, ops: seq<Op<K, V>>, i: nat, k: nat, key: K)
    requires PositiveClock(ops) && i < k <= |ops| && Touches(c, ops, i, key) && NothingDropped(c, ops, i, k)
    requires |OthersTouched(c, ops, i + 1, k, key)| < c.capacity
    ensures SparedBetween(c, ops, i, k, key)
    decreases k
  {
    hide ListAt, Touches, Sound, PositiveClock, Keys, InFrontOf, OthersTouched, Spares, DropsNothing, SparedBetween, NothingDropped;
    if k > i + 1 {
      OneStepLess(c, ops, i, k);
      OthersGrow(c, ops, i + 1, k, key);
      StaysSpared(c, ops, i, k - 1, key);
      TouchedKeySurvives(c, ops, i, k - 1, key);
      SparesPresent(ListAt(c, ops, k - 1), ops[k - 1], key);
      SparedOneMore(c, ops, i, k, key);
    } else {
      SparedAtOnce(c, ops, i, key);
    }
  }

  lemma OneStepLess<K, V>(c: Config, ops: seq<Op<K, V>>, i: nat, k: nat)
    requires i + 1 < k <= |ops| && NothingDropped(c, ops, i, k)
    ensures NothingDropped(c, ops, i, k - 1) && DropsNothing(ListAt(c, ops, k - 1), ops[k - 1])
  {
    hide ListAt, DropsNothing;
  }

  lemma SparedOneMore<K, V>(c: Config, ops: seq<Op<K, V>>, i: nat, k: nat, key: K)
    requires i + 1 < k <= |ops| && SparedBetween(c, ops, i, k - 1, key) && Spares(ListAt(c, ops, k - 1), ops[k - 1], key)
    ensures SparedBetween(c, ops, i, k, key)
  {
    hide ListAt, Spares;
  }

  lemma SparedAtOnce<K, V>(c: Config, ops: seq<Op<K, V>>, i: nat, key: K)
    requires i < |ops|
    ensures SparedBetween(c, ops, i, i + 1, key)
  {
  }

  lemma SparesPresent<K, V>(l: List<K, V>, op: Op<K, V>, key: K)
    requires DropsNothing(l, op) && key in Keys(l)
    ensures Spares(l, op, key)
  {
    FoundIff(l, key);
  }

  // The stack property of LRU.
  lemma {:induction false} SurvivesIff<K, V>(c: Config, ops: seq<Op<K, V>>, i: nat, k: nat, key: K)
    requires PositiveClock(ops) && i < k <= |ops| && LastTouched(c, ops, i, k, key) && NothingDropped(c, ops, i, k)
    ensures key in Keys(ListAt(c, ops, k)) <==> |OthersTouched(c, ops, i + 1, k, key)| < c.capacity
  {
    hide ListAt, Touches, Sound, PositiveClock, Keys, InFrontOf, OthersTouched, AllBehind, NothingDropped;
    if key in Keys(ListAt(c, ops, k)) {
      PresentMeansBehind(c, ops, i, k, key);
      AlwaysSound(c, ops, k);
      NotAmongOthers(c, ops, i + 1, k, key);
      BehindFits(c, ListAt(c, ops, k), key, OthersTouched(c, ops, i + 1, k, key));
    }
    if |OthersTouched(c, ops, i + 1, k, key)| < c.capacity {
      StaysSpared(c, ops, i, k, key);
      TouchedKeySurvives(c, ops, i, k, key);
    }
  }
}
