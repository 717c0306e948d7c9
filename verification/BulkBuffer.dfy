// A buffer that flushes when it holds `maxSize` items or when the first of them has waited for
// `flushIntervalMs`, whichever comes first.

module BulkBufferModel {
  import opened Prelude

  class BulkBuffer<T> {
    const maxSize: nat
    const flushIntervalMs: nat
    var items: seq<T>
    var timer: Option<int>  // when it fires

    // The batches handed to onFlush, in order, everything pushed so far, and when each was pushed.
    ghost var flushed: seq<seq<T>>
    ghost var pushed: seq<T>
    ghost var times: seq<int>

    // As of this moment, the timer not being overdue.
    ghost predicate Valid(now: int)
      reads this
    {
      && |items| < (if maxSize >= 1 then maxSize else 1)
      && (timer.Some? <==> items != [])
      && pushed == Joined(flushed) + items && |times| == |pushed|
      && (forall i | 0 <= i < |times| :: times[i] <= now)
      && (forall i, j | 0 <= i < j < |times| :: times[i] <= times[j])
      && |items| <= |pushed|
      && (timer.Some? ==> now <= timer.value == times[|pushed| - |items|] + flushIntervalMs)
    }

    constructor (maxSize: nat, flushIntervalMs: nat, ghost now: int)
      ensures Valid(now) && this.maxSize == maxSize && this.flushIntervalMs == flushIntervalMs
      ensures items == [] && flushed == [] && pushed == []
    {
      this.maxSize, this.flushIntervalMs := maxSize, flushIntervalMs;
      items, timer := [], None;
      flushed, pushed, times := [], [], [];
    }

    method Push(item: T, now: int, ghost last: int)
      requires Valid(last) && last <= now && (timer.Some? ==> now <= timer.value)
      modifies this
      ensures Valid(now) && pushed == old(pushed) + [item] && times == old(times) + [now]
      ensures items == [] || |items| < maxSize
      ensures flushed == (if |old(items)| + 1 >= maxSize then old(flushed) + [old(items) + [item]] else old(flushed))
      ensures items == [] ==> forall i | |pushed| - |old(items)| - 1 <= i < |pushed| :: times[i] <= now <= times[i] + flushIntervalMs
    {
      hide Joined;
      assert Joined(flushed) + items + [item] == Joined(flushed) + (items + [item]);
      items := items + [item];
      pushed, times := pushed + [item], times + [now];
      if |items| >= maxSize {
        Flush();
        return;
      }
      if timer.None? {
        timer := Some(now + flushIntervalMs);
      }
    }

    method Flush()
      modifies this
      ensures items == [] && pushed == old(pushed) && times == old(times)
      ensures flushed == (if old(items) == [] then old(flushed) else old(flushed) + [old(items)])
      ensures Joined(flushed) == old(Joined(flushed) + items)
      ensures timer == if old(items) == [] then old(timer) else None
    {
      if |items| == 0 {
        assert Joined(flushed) + [] == Joined(flushed);
        return;
      }
      var batch := items;
      items := [];
      if timer.Some? {
        timer := None;
      }
      flushed := flushed + [batch];
      assert flushed[..|flushed| - 1] == old(flushed);
    }

    // The timer fires on time: every item handed over has waited no longer than the interval.
    method Fire(now: int, ghost last: int)
      requires Valid(last) && timer == Some(now)
      modifies this
      ensures Valid(now) && items == [] && pushed == old(pushed)
      ensures flushed == old(flushed) + [old(items)]
      ensures now == times[|pushed| - |old(items)|] + flushIntervalMs
      ensures forall i | |pushed| - |old(items)| <= i < |pushed| :: times[i] <= now <= times[i] + flushIntervalMs
    {
      Flush();
    }
  }

  function Joined<T>(batches: seq<seq<T>>): seq<T> {
    if batches == [] then [] else Joined(batches[..|batches| - 1]) + batches[|batches| - 1]
  }
}
