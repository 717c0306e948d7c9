// DLQProvider over one collection of entries. Clock readings (`new Date()`) and generated ids are
// inputs of the methods.

module DlqProviderModel {
  import opened Prelude
  import opened DlqEntry

  class DLQProvider {
    var entries: Collection

    constructor ()
      ensures entries == map[]
    {
      entries := map[];
    }

    method Push(id: Id, input: PushInput, now: int) returns (e: Entry)
      requires id !in entries
      modifies this
      ensures entries == old(entries)[id := e]
      ensures e == NewEntry(input, now)
      ensures WellFormed(e)
    {
      e := NewEntry(input, now);
      entries := entries[id := e];
    }

    method Get(id: Id) returns (r: Result<Entry, DlqError>)
      ensures r == if id in entries then Success(entries[id]) else Failure(NotFound)
    {
      if id !in entries {
        return Failure(NotFound);
      }
      r := Success(entries[id]);
    }

    // Null exactly when nothing is eligible; otherwise one oldest eligible entry changes.
    method Claim(options: ClaimOptions, now: int) returns (claimed: Option<Id>)
      modifies this
      ensures claimed.None? <==> !AnyEligible(old(entries), options, now)
      ensures claimed.None? ==> entries == old(entries)
      ensures claimed.Some? ==>
                && OldestEligible(old(entries), claimed.value, options, now)
                && entries == old(entries)[claimed.value := ClaimUpdate(old(entries)[claimed.value], options, now)]
    {
      if !exists id | id in entries :: Eligible(entries[id], options, now) {
        return None;
      }
      ghost var oldest := SomeOldestEligible(entries, entries.Keys, options, now);
      assert OldestEligible(entries, oldest, options, now);
      var id :| id in entries && Eligible(entries[id], options, now) &&
                forall j | j in entries && Eligible(entries[j], options, now) :: entries[id].createdAt <= entries[j].createdAt;
      entries := entries[id := ClaimUpdate(entries[id], options, now)];
      claimed := Some(id);
    }

    // The shared fenced write: an update is applied only under the caller's own active claim.
    method TransitionLeasedEntry(id: Id, leaseOwner: Owner, update: Entry -> Entry)
      returns (r: Result<Entry, DlqError>)
      modifies this
      ensures if HeldBy(old(entries), id, leaseOwner)
              then r == Success(update(old(entries)[id])) && entries == old(entries)[id := update(old(entries)[id])]
              else r == Failure(Conflict) && entries == old(entries)
    {
      if id !in entries || entries[id].leaseOwner != Some(leaseOwner) || entries[id].status != Claimed {
        return Failure(Conflict);
      }
      var updated := update(entries[id]);
      entries := entries[id := updated];
      r := Success(updated);
    }

    method Release(id: Id, leaseOwner: Owner) returns (r: Result<Entry, DlqError>)
      modifies this
      ensures entries == ReleaseIn(old(entries), id, leaseOwner)
      ensures r == if HeldBy(old(entries), id, leaseOwner) then Success(entries[id]) else Failure(Conflict)
    {
      r := TransitionLeasedEntry(id, leaseOwner, e => Unleased(e, Pending));
    }

    method Complete(id: Id, leaseOwner: Owner) returns (r: Result<Entry, DlqError>)
      modifies this
      ensures entries == CompleteIn(old(entries), id, leaseOwner)
      ensures r == if HeldBy(old(entries), id, leaseOwner) then Success(entries[id]) else Failure(Conflict)
    {
      r := TransitionLeasedEntry(id, leaseOwner, e => Unleased(e, Completed));
    }

    // First half of `fail`: read the claimed entry and decide the next status from it.
    method FailRead(id: Id, leaseOwner: Owner, error: ErrorInfo) returns (r: Result<FailCall, DlqError>)
      ensures r == if HeldBy(entries, id, leaseOwner)
                   then Success(FailCallFor(entries[id], id, leaseOwner, error))
                   else Failure(Conflict)
    {
      if id !in entries || entries[id].leaseOwner != Some(leaseOwner) || entries[id].status != Claimed {
        return Failure(Conflict);
      }
      var current := entries[id];
      var nextStatus: StatusAfterFailing := if current.maxAttempts.Some? && current.maxAttempts.value != 0 &&
                           current.attempts >= current.maxAttempts.value then Failed else Pending;
      r := Success(FailCall(id, leaseOwner, error, nextStatus, current.attempts));
    }

    // Second half of `fail`: the fenced write of what the read decided.
    method FailWrite(call: FailCall, now: int) returns (r: Result<Entry, DlqError>)
      modifies this
      ensures entries == FailWriteIn(old(entries), call, now)
      ensures r == if HeldBy(old(entries), call.id, call.leaseOwner) then Success(entries[call.id]) else Failure(Conflict)
    {
      r := TransitionLeasedEntry(call.id, call.leaseOwner,
                                 (e: Entry) => FailUpdate(e, call, now));
    }

    // With nobody writing in between, the two steps are the atomic fail.
    method Fail(id: Id, leaseOwner: Owner, error: ErrorInfo, now: int) returns (r: Result<Entry, DlqError>)
      modifies this
      ensures entries == AtomicFailIn(old(entries), id, leaseOwner, error, now)
      ensures r == if HeldBy(old(entries), id, leaseOwner) then Success(entries[id]) else Failure(Conflict)
    {
      var read := FailRead(id, leaseOwner, error);
      if read.Failure? {
        return Failure(read.error);
      }
      r := FailWrite(read.value, now);
    }

    method Requeue(id: Id, resetAttempts: bool) returns (r: Result<Entry, DlqError>)
      modifies this
      ensures entries == RequeueIn(old(entries), id, resetAttempts)
      ensures r == if id in old(entries) then Success(entries[id]) else Failure(NotFound)
    {
      if id !in entries {
        return Failure(NotFound);
      }
      var e := Unleased(entries[id], Pending);
      if resetAttempts {
        e := e.(attempts := 0);
      }
      entries := entries[id := e];
      r := Success(e);
    }

    method Discard(id: Id, reason: string) returns (r: Result<Entry, DlqError>)
      modifies this
      ensures entries == DiscardIn(old(entries), id, reason)
      ensures r == if id in old(entries) then Success(entries[id]) else Failure(NotFound)
    {
      if id !in entries {
        return Failure(NotFound);
      }
      var e := Unleased(entries[id], Discarded);
      if reason != "" {
        e := e.(metadata := e.metadata["discardReason" := reason]);
      }
      entries := entries[id := e];
      r := Success(e);
    }

    method Remove(id: Id) returns (r: Result<(), DlqError>)
      modifies this
      ensures entries == old(entries) - {id}
      ensures r == if id in old(entries) then Success(()) else Failure(NotFound)
    {
      if id !in entries {
        return Failure(NotFound);
      }
      entries := entries - {id};
      r := Success(());
    }
  }
}
