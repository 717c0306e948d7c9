// The persisted DLQ entry and the atomic single-document operations that DLQProvider issues.
//
// Every function below describes one findOneAndUpdate / create / deleteOne on the collection. The
// class in DlqProvider.dfy is proved against them, and the interleaved runs of DlqRuns.dfy are made
// of them.

module DlqEntry {
  import opened Prelude

  type Id = nat
  type Owner = string

  datatype Status = Pending | Claimed | Failed | Completed | Discarded

  datatype ErrorInfo = ErrorInfo(name: string, message: string, stack: Option<string>)

  datatype HistoryItem = HistoryItem(info: ErrorInfo, occurredAt: int, attempt: nat)

  datatype Entry = Entry(
    processType: string,
    origin: string,
    processId: Option<string>,
    payload: string,
    createdAt: int,
    error: ErrorInfo,
    errorHistory: seq<HistoryItem>,
    attempts: nat,
    maxAttempts: Option<int>,
    status: Status,
    leaseOwner: Option<Owner>,
    leaseExpiresAt: Option<int>,
    metadata: map<string, string>)

  type Collection = map<Id, Entry>

  datatype PushInput = PushInput(
    processType: string,
    origin: string,
    processId: Option<string>,
    payload: string,
    error: ErrorInfo,
    maxAttempts: Option<int>,
    metadata: map<string, string>)

  // `filter` is the caller's extra condition; it reads neither the status nor the lease.
  datatype ClaimOptions = ClaimOptions(
    leaseOwner: Owner,
    leaseTtlMs: int,
    processType: string,
    filter: Entry -> bool)

  datatype DlqError = Conflict | NotFound

  function NewEntry(input: PushInput, at: int): Entry {
    Entry(input.processType, input.origin, input.processId, input.payload, at, input.error, [HistoryItem(input.error, at, 0)],
          0, input.maxAttempts, Pending, None, None, input.metadata)
  }

  // ----- claim ------------------------------------------------------------------------------

  // The claim's own query: a claimable status, and no lease or a lease that ran out before `now`.
  predicate Eligible(e: Entry, options: ClaimOptions, now: int) {
    && (e.status == Pending || e.status == Claimed)
    && (e.leaseExpiresAt.None? || e.leaseExpiresAt.value < now)
    && (options.processType == "" || e.processType == options.processType)
    && options.filter(e)
  }

  predicate AnyEligible(c: Collection, options: ClaimOptions, now: int) {
    exists id | id in c :: Eligible(c[id], options, now)
  }

  // `sort: { createdAt: 1 }`: an eligible entry no eligible entry is older than.
  predicate OldestEligible(c: Collection, id: Id, options: ClaimOptions, now: int) {
    && id in c
    && Eligible(c[id], options, now)
    && forall j | j in c && Eligible(c[j], options, now) :: c[id].createdAt <= c[j].createdAt
  }

  function ClaimUpdate(e: Entry, options: ClaimOptions, now: int): Entry {
    e.(status := Claimed,
       leaseOwner := Some(options.leaseOwner),
       leaseExpiresAt := Some(now + options.leaseTtlMs),
       attempts := e.attempts + 1)
  }

  // A query that matches anything has an oldest match, so `claim` returns null only for no match.
  lemma {:induction false} SomeOldestEligible(c: Collection, ids: set<Id>, options: ClaimOptions, now: int)
    returns (first: Id)
    requires ids <= c.Keys
    requires exists id :: id in ids && Eligible(c[id], options, now)
    ensures first in ids && Eligible(c[first], options, now)
    ensures forall j | j in ids && Eligible(c[j], options, now) :: c[first].createdAt <= c[j].createdAt
    decreases ids
  {
    first :| first in ids && Eligible(c[first], options, now);
    var rest := ids - {first};
    if exists id :: id in rest && Eligible(c[id], options, now) {
      var other := SomeOldestEligible(c, rest, options, now);
      if c[other].createdAt < c[first].createdAt {
        first := other;
      }
    }
  }

  // ----- lease-fenced transitions -----------------------------------------------------------

  // The fence `{ _id, leaseOwner, status: 'claimed' }`.
  predicate HeldBy(c: Collection, id: Id, owner: Owner) {
    id in c && c[id].status == Claimed && c[id].leaseOwner == Some(owner)
  }

  function Unleased(e: Entry, status: Status): Entry {
    e.(status := status, leaseOwner := None, leaseExpiresAt := None)
  }

  function ReleaseIn(c: Collection, id: Id, owner: Owner): Collection {
    if HeldBy(c, id, owner) then c[id := Unleased(c[id], Pending)] else c
  }

  function CompleteIn(c: Collection, id: Id, owner: Owner): Collection {
    if HeldBy(c, id, owner) then c[id := Unleased(c[id], Completed)] else c
  }

  // ----- fail: a read that decides, then a fenced write ------------------------------------

  predicate AttemptsExhausted(e: Entry) {
    e.maxAttempts.Some? && e.maxAttempts.value != 0 && e.attempts >= e.maxAttempts.value
  }

  function StatusAfterFail(e: Entry): StatusAfterFailing {
    if AttemptsExhausted(e) then Failed else Pending
  }

  type StatusAfterFailing = s: Status | s == Pending || s == Failed witness Pending

  // What `fail` carries from its read to its write.
  datatype FailCall = FailCall(id: Id, leaseOwner: Owner, error: ErrorInfo, status: StatusAfterFailing, attempt: nat)

  function FailCallFor(e: Entry, id: Id, owner: Owner, error: ErrorInfo): FailCall {
    FailCall(id, owner, error, StatusAfterFail(e), e.attempts)
  }

  function FailUpdate(e: Entry, call: FailCall, at: int): Entry {
    Unleased(e, call.status).(
      error := call.error,
      errorHistory := e.errorHistory + [HistoryItem(call.error, at, call.attempt)])
  }

  function FailWriteIn(c: Collection, call: FailCall, at: int): Collection {
    if HeldBy(c, call.id, call.leaseOwner)
    then c[call.id := FailUpdate(c[call.id], call, at)]
    else c
  }

  // The reference: deciding and writing on one and the same version of the entry.
  function AtomicFailIn(c: Collection, id: Id, owner: Owner, error: ErrorInfo, at: int): Collection {
    if HeldBy(c, id, owner)
    then c[id := FailUpdate(c[id], FailCallFor(c[id], id, owner, error), at)]
    else c
  }

  // ----- administrative operations ----------------------------------------------------------

  function RequeueIn(c: Collection, id: Id, resetAttempts: bool): Collection {
    if id in c
    then c[id := Unleased(c[id], Pending).(attempts := if resetAttempts then 0 else c[id].attempts)]
    else c
  }

  function DiscardIn(c: Collection, id: Id, reason: string): Collection {
    if id in c
    then
      var metadata := c[id].metadata;
      c[id := Unleased(c[id], Discarded).(
          metadata := if reason == "" then metadata else metadata["discardReason" := reason])]
    else c
  }

  // ----- entry invariant --------------------------------------------------------------------

  // Lease fields are present exactly while the entry is claimed, and `error` repeats the newest
  // item of a never empty history.
  predicate WellFormed(e: Entry) {
    && (e.leaseOwner.Some? <==> e.status == Claimed)
    && (e.leaseExpiresAt.Some? <==> e.status == Claimed)
    && |e.errorHistory| > 0
    && e.errorHistory[|e.errorHistory| - 1].info == e.error
  }

  // When the two-step write and the atomic one agree on a held entry, for every collection: exactly
  // when the read saw the attempts count the write finds.
  lemma FailWriteIsAtomicIff(c: Collection, read: Entry, id: Id, owner: Owner, error: ErrorInfo, at: int)
    requires HeldBy(c, id, owner)
    requires read.maxAttempts == c[id].maxAttempts
    ensures FailWriteIn(c, FailCallFor(read, id, owner, error), at) == AtomicFailIn(c, id, owner, error, at)
            <==> read.attempts == c[id].attempts
  {
    var twoStep := FailWriteIn(c, FailCallFor(read, id, owner, error), at);
    var atomic := AtomicFailIn(c, id, owner, error, at);
    assert twoStep[id] == FailUpdate(c[id], FailCallFor(read, id, owner, error), at);
    assert atomic[id] == FailUpdate(c[id], FailCallFor(c[id], id, owner, error), at);
    var n := |c[id].errorHistory|;
    assert twoStep[id].errorHistory[n].attempt == read.attempts;
    assert atomic[id].errorHistory[n].attempt == c[id].attempts;
  }
}
