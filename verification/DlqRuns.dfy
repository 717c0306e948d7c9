// Interleaved runs of the DLQ: many clients, a clock that only moves forward, and `fail` split into
// its read and its write. Each step is one atomic document operation; a client's own clock reading
// is any value not after the moment its write commits.

module DlqRuns {
  import opened Prelude
  import opened DlqEntry

  type CallId = nat

  datatype Step =
    | Tick(ms: nat)
    | Push(id: Id, input: PushInput, now: int)
    | Claim(picked: Option<Id>, options: ClaimOptions, now: int)
    | Release(id: Id, owner: Owner)
    | Complete(id: Id, owner: Owner)
    | FailRead(call: CallId, id: Id, owner: Owner, error: ErrorInfo)
    | FailWrite(call: CallId, now: int)
    | Requeue(id: Id, resetAttempts: bool)
    | Discard(id: Id, reason: string)
    | Remove(id: Id)

  // `used` remembers every id ever assigned: Mongo never hands out an id twice.
  datatype State = State(clock: int, entries: Collection, used: set<Id>, calls: map<CallId, FailCall>)

  const START := State(0, map[], {}, map[])

  ghost predicate Legal(s: State, step: Step) {
    match step
    case Push(id, _, now) => id !in s.used && now <= s.clock
    case Claim(None, options, now) => !AnyEligible(s.entries, options, now) && now <= s.clock
    case Claim(Some(id), options, now) => OldestEligible(s.entries, id, options, now) && now <= s.clock
    case FailRead(call, _, _, _) => call !in s.calls
    case FailWrite(call, now) => call in s.calls && now <= s.clock
    case _ => true
  }

  // An operation whose condition does not hold throws or returns null and writes nothing.
  ghost function Do(s: State, step: Step): State {
    match step
    case Tick(ms) => s.(clock := s.clock + ms)
    case Push(id, input, now) => s.(entries := s.entries[id := NewEntry(input, now)], used := s.used + {id})
    case Claim(Some(id), options, now) =>
      if id in s.entries then s.(entries := s.entries[id := ClaimUpdate(s.entries[id], options, now)]) else s
    case Claim(None, _, _) => s
    case Release(id, owner) => s.(entries := ReleaseIn(s.entries, id, owner))
    case Complete(id, owner) => s.(entries := CompleteIn(s.entries, id, owner))
    case FailRead(call, id, owner, error) =>
      if HeldBy(s.entries, id, owner)
      then s.(calls := s.calls[call := FailCallFor(s.entries[id], id, owner, error)])
      else s
    case FailWrite(call, now) =>
      if call in s.calls
      then s.(entries := FailWriteIn(s.entries, s.calls[call], now), calls := s.calls - {call})
      else s
    case Requeue(id, reset) => s.(entries := RequeueIn(s.entries, id, reset))
    case Discard(id, reason) => s.(entries := DiscardIn(s.entries, id, reason))
    case Remove(id) => s.(entries := s.entries - {id})
  }

  // Nothing that clients may do is left out of the runs: every call can be made in every state, and
  // every claim has its answer.
  lemma NoCallIsRefused(s: State, step: Step)
    ensures step.Push? && step.id !in s.used && step.now <= s.clock ==> Legal(s, step)
    ensures step.FailRead? && step.call !in s.calls ==> Legal(s, step)
    ensures step.FailWrite? && step.call in s.calls && step.now <= s.clock ==> Legal(s, step)
    ensures !step.Push? && !step.Claim? && !step.FailRead? && !step.FailWrite? ==> Legal(s, step)
  {
  }

  lemma ClaimIsAnswered(s: State, options: ClaimOptions, now: int)
    requires now <= s.clock
    ensures exists picked :: Legal(s, Claim(picked, options, now))
  {
    if AnyEligible(s.entries, options, now) {
      var id :| id in s.entries && Eligible(s.entries[id], options, now);
      var eligible := set j | j in s.entries && Eligible(s.entries[j], options, now);
      assert id in eligible;
      var oldest := OldestOf(s.entries, eligible);
      assert Legal(s, Claim(Some(oldest), options, now));
    } else {
      assert Legal(s, Claim(None, options, now));
    }
  }

  lemma {:induction false} OldestOf(c: Collection, ids: set<Id>) returns (oldest: Id)
    requires ids != {} && ids <= c.Keys
    ensures oldest in ids && forall j | j in ids :: c[oldest].createdAt <= c[j].createdAt
  {
    oldest :| oldest in ids;
    if ids != {oldest} {
      var other := OldestOf(c, ids - {oldest});
      if c[other].createdAt < c[oldest].createdAt {
        oldest := other;
      }
    }
  }

  // ----- runs -------------------------------------------------------------------------------

  // The steps taken and the states they lead through.
  datatype Run = Run(steps: seq<Step>, states: seq<State>)

  ghost predicate LegalRun(run: Run) {
    && |run.states| == |run.steps| + 1
    && run.states[0] == START
    && forall k {:trigger run.steps[k]} | 0 <= k < |run.steps| :: Leads(run, k)
  }

  ghost predicate Leads(run: Run, k: nat)
    requires k < |run.steps| && |run.states| == |run.steps| + 1
  {
    Legal(run.states[k], run.steps[k]) && run.states[k + 1] == Do(run.states[k], run.steps[k])
  }

  ghost function At(run: Run, k: nat): State {
    if k < |run.states| then run.states[k] else START
  }

  ghost predicate Present(run: Run, k: nat, id: Id) {
    k <= |run.steps| && id in At(run, k).entries
  }

  ghost function EntryAt(run: Run, k: nat, id: Id): Entry
    requires Present(run, k, id)
  {
    At(run, k).entries[id]
  }

  ghost predicate ClaimedAt(run: Run, k: nat, id: Id) {
    Present(run, k, id) && EntryAt(run, k, id).status == Claimed
  }

  ghost predicate ClaimsIt(step: Step, id: Id) {
    step.Claim? && step.picked == Some(id)
  }

  ghost function Expiry(step: Step): int
    requires step.Claim?
  {
    step.now + step.options.leaseTtlMs
  }

  // Step k is a release, complete or fail that takes effect on `id` under the claim of `owner`.
  ghost predicate EndsClaim(run: Run, k: nat, id: Id, owner: Owner) {
    && k < |run.steps|
    && HeldBy(At(run, k).entries, id, owner)
    && match run.steps[k]
       case Release(i, o) => i == id && o == owner
       case Complete(i, o) => i == id && o == owner
       case FailWrite(call, _) =>
         call in At(run, k).calls && At(run, k).calls[call].id == id && At(run, k).calls[call].leaseOwner == owner
       case _ => false
  }

  ghost predicate CommitsFail(run: Run, k: nat, id: Id) {
    && k < |run.steps| && run.steps[k].FailWrite? && run.steps[k].call in At(run, k).calls
    && var call := At(run, k).calls[run.steps[k].call];
       call.id == id && HeldBy(At(run, k).entries, id, call.leaseOwner)
  }

  // ----- one step, seen from one entry ------------------------------------------------------

  ghost predicate Held(e: Entry, owner: Owner) {
    e.status == Claimed && e.leaseOwner == Some(owner)
  }

  // What a step makes of an entry that is there before and after it.
  ghost function Next(calls: map<CallId, FailCall>, step: Step, id: Id, e: Entry): Entry {
    match step
    case Claim(Some(i), options, now) => if i == id then ClaimUpdate(e, options, now) else e
    case Release(i, owner) => if i == id && Held(e, owner) then Unleased(e, Pending) else e
    case Complete(i, owner) => if i == id && Held(e, owner) then Unleased(e, Completed) else e
    case FailWrite(call, now) =>
      if call in calls && calls[call].id == id && Held(e, calls[call].leaseOwner)
      then FailUpdate(e, calls[call], now)
      else e
    case Requeue(i, reset) =>
      if i == id then Unleased(e, Pending).(attempts := if reset then 0 else e.attempts) else e
    case Discard(i, reason) =>
      if i != id then e
      else Unleased(e, Discarded).(metadata := if reason == "" then e.metadata else e.metadata["discardReason" := reason])
    case _ => e
  }

  lemma DoOnEntry(s: State, step: Step, id: Id)
    requires Legal(s, step) && id in Do(s, step).entries
    requires id in s.entries ==> id in s.used
    ensures id in s.entries ==> Do(s, step).entries[id] == Next(s.calls, step, id, s.entries[id])
    ensures id in s.entries && ClaimsIt(step, id) ==> Eligible(s.entries[id], step.options, step.now)
    ensures id !in s.entries ==> step.Push? && step.id == id && id !in s.used
                                 && Do(s, step).entries[id] == NewEntry(step.input, step.now)
  {
  }

  lemma DoOnCalls(s: State, step: Step, call: CallId)
    requires Legal(s, step) && call in Do(s, step).calls
    ensures || (call in s.calls && Do(s, step).calls[call] == s.calls[call])
            || (step.FailRead? && step.call == call && HeldBy(s.entries, step.id, step.owner) &&
                Do(s, step).calls[call] == FailCallFor(s.entries[step.id], step.id, step.owner, step.error))
  {
  }

  lemma NextWellFormed(calls: map<CallId, FailCall>, step: Step, id: Id, e: Entry)
    requires WellFormed(e)
    ensures WellFormed(Next(calls, step, id, e))
  {
  }

  // ----- entry invariant over all runs ------------------------------------------------------

  lemma {:induction false} AllWellFormed(run: Run, k: nat, id: Id)
    requires LegalRun(run) && Present(run, k, id)
    ensures WellFormed(EntryAt(run, k, id))
    ensures var e := EntryAt(run, k, id);
            && (e.leaseOwner.Some? <==> e.status == Claimed) && (e.leaseExpiresAt.Some? <==> e.status == Claimed)
            && e.errorHistory != [] && e.error == e.errorHistory[|e.errorHistory| - 1].info
    ensures id in At(run, k).used
  {
    assert k > 0;
    var s, step := At(run, k - 1), run.steps[k - 1];
    assert Legal(s, step);
    if id in s.entries {
      AllWellFormed(run, k - 1, id);
      NextWellFormed(s.calls, step, id, s.entries[id]);
    }
    DoOnEntry(s, step, id);
  }

  // The step into state k, seen from the fail calls under way in state k.
  lemma SteppedCalls(run: Run, k: nat, call: CallId)
    requires LegalRun(run) && 0 < k <= |run.steps|
    ensures call in At(run, k - 1).calls && !(run.steps[k - 1].FailWrite? && run.steps[k - 1].call == call) ==>
              call in At(run, k).calls && At(run, k).calls[call] == At(run, k - 1).calls[call]
    ensures run.steps[k - 1].FailRead? && run.steps[k - 1].call == call && HeldBy(At(run, k - 1).entries, run.steps[k - 1].id, run.steps[k - 1].owner) ==>
              && call in At(run, k).calls
              && At(run, k).calls[call]
                 == FailCallFor(At(run, k - 1).entries[run.steps[k - 1].id], run.steps[k - 1].id, run.steps[k - 1].owner, run.steps[k - 1].error)
  {
    assert Legal(At(run, k - 1), run.steps[k - 1]);
  }

  // The step into state k, seen from an entry that is there in state k.
  lemma Stepped(run: Run, k: nat, id: Id)
    requires LegalRun(run) && Present(run, k, id)
    ensures k > 0 && WellFormed(EntryAt(run, k, id))
    ensures Present(run, k - 1, id) ==>
              && WellFormed(EntryAt(run, k - 1, id))
              && !(run.steps[k - 1].Push? && run.steps[k - 1].id == id)
              && EntryAt(run, k, id) == Next(At(run, k - 1).calls, run.steps[k - 1], id, EntryAt(run, k - 1, id))
              && (ClaimsIt(run.steps[k - 1], id) ==> Eligible(EntryAt(run, k - 1, id), run.steps[k - 1].options, run.steps[k - 1].now))
    ensures !Present(run, k - 1, id) ==>
              && run.steps[k - 1].Push? && run.steps[k - 1].id == id && id !in At(run, k - 1).used
              && EntryAt(run, k, id) == NewEntry(run.steps[k - 1].input, run.steps[k - 1].now)
  {
    AllWellFormed(run, k, id);
    var s, step := At(run, k - 1), run.steps[k - 1];
    assert Legal(s, step);
    if id in s.entries {
      AllWellFormed(run, k - 1, id);
    }
    DoOnEntry(s, step, id);
  }

  // ----- what was pushed --------------------------------------------------------------------

  // Whatever happens to an entry, what its push gave stays with it; only `discardReason` is ever added
  // to the metadata.
  lemma {:induction false} PushedStays(run: Run, i: nat, k: nat, id: Id)
    requires LegalRun(run) && i < k <= |run.steps| && Present(run, k, id)
    requires run.steps[i].Push? && run.steps[i].id == id
    ensures var e, input := EntryAt(run, k, id), run.steps[i].input;
            && e.processType == input.processType && e.origin == input.origin && e.processId == input.processId
            && e.payload == input.payload && e.maxAttempts == input.maxAttempts && e.createdAt == run.steps[i].now
            && e.metadata - {"discardReason"} == input.metadata - {"discardReason"}
    decreases k
  {
    hide Do, At, LegalRun;
    Stepped(run, k, id);
    if i + 1 < k {
      PushedIsUsed(run, i, k - 1, id);
      PushedStays(run, i, k - 1, id);
      SameButReason(At(run, k - 1).calls, run.steps[k - 1], id, EntryAt(run, k - 1, id));
    } else {
      PushedIsThere(run, i, id);
    }
  }

  lemma SameButReason(calls: map<CallId, FailCall>, step: Step, id: Id, e: Entry)
    ensures var f := Next(calls, step, id, e);
            && f.processType == e.processType && f.origin == e.origin && f.processId == e.processId
            && f.payload == e.payload && f.maxAttempts == e.maxAttempts && f.createdAt == e.createdAt
            && f.metadata - {"discardReason"} == e.metadata - {"discardReason"}
  {
    if step.Discard? && step.id == id && step.reason != "" {
      assert e.metadata["discardReason" := step.reason] - {"discardReason"} == e.metadata - {"discardReason"};
    }
  }

  lemma PushedIsThere(run: Run, i: nat, id: Id)
    requires LegalRun(run) && i < |run.steps| && run.steps[i].Push? && run.steps[i].id == id
    ensures Present(run, i + 1, id) && !Present(run, i, id) && id in At(run, i + 1).used
  {
    assert Legal(At(run, i), run.steps[i]);
    if Present(run, i, id) {
      AllWellFormed(run, i, id);
    }
  }

  lemma {:induction false} PushedIsUsed(run: Run, i: nat, j: nat, id: Id)
    requires LegalRun(run) && i < j <= |run.steps| && run.steps[i].Push? && run.steps[i].id == id
    ensures id in At(run, j).used
    decreases j
  {
    hide LegalRun, At, Legal;
    PushedIsThere(run, i, id);
    UsedStays(run, i + 1, j, id);
  }

  // A freshly pushed entry can be claimed by whoever asks for its process type or for any, if the filter
  // lets it pass.
  lemma PushedIsClaimable(run: Run, i: nat, id: Id, options: ClaimOptions, now: int)
    requires LegalRun(run) && i < |run.steps| && run.steps[i].Push? && run.steps[i].id == id
    ensures Present(run, i + 1, id) && EntryAt(run, i + 1, id).attempts == 0
    ensures var e := EntryAt(run, i + 1, id);
            && e.error == run.steps[i].input.error
            && e.errorHistory == [HistoryItem(run.steps[i].input.error, run.steps[i].now, 0)]
            && (Eligible(e, options, now) <==>
                 (options.processType == "" || options.processType == run.steps[i].input.processType) && options.filter(e))
  {
    PushedIsThere(run, i, id);
    hide LegalRun, At;
    Stepped(run, i + 1, id);
  }

  // A requeued entry can be claimed again in the same way, with its attempts or from 0.
  lemma RequeuedIsClaimable(run: Run, k: nat, id: Id, options: ClaimOptions, now: int)
    requires LegalRun(run) && k < |run.steps| && run.steps[k].Requeue? && run.steps[k].id == id && Present(run, k, id)
    ensures Present(run, k + 1, id)
    ensures var before, e := EntryAt(run, k, id), EntryAt(run, k + 1, id);
            && e.attempts == (if run.steps[k].resetAttempts then 0 else before.attempts)
            && (Eligible(e, options, now) <==> (options.processType == "" || options.processType == before.processType) && options.filter(e))
  {
    assert Legal(At(run, k), run.steps[k]);
    AllWellFormed(run, k, id);
  }

  // A discarded entry can no longer be claimed; it says why, if a reason was given.
  lemma DiscardedIsClosed(run: Run, k: nat, id: Id, options: ClaimOptions, now: int)
    requires LegalRun(run) && k < |run.steps| && run.steps[k].Discard? && run.steps[k].id == id && Present(run, k, id)
    ensures Present(run, k + 1, id) && !Eligible(EntryAt(run, k + 1, id), options, now)
    ensures var before, e := EntryAt(run, k, id), EntryAt(run, k + 1, id);
            && e.status == Discarded && e.attempts == before.attempts && e.errorHistory == before.errorHistory
            && (run.steps[k].reason != "" ==> "discardReason" in e.metadata && e.metadata["discardReason"] == run.steps[k].reason)
            && (run.steps[k].reason == "" ==> e.metadata == before.metadata)
  {
    assert Legal(At(run, k), run.steps[k]);
  }

  // First come, first claimed: what a claim picks is what it asked for and could have, and nothing else
  // that is pending and asked for was created before it.
  lemma ClaimsTheOldest(run: Run, k: nat, id: Id, other: Id)
    requires LegalRun(run) && k < |run.steps| && ClaimsIt(run.steps[k], id) && Present(run, k, other)
    ensures Present(run, k, id) && Present(run, k + 1, id)
    ensures var options, e, o := run.steps[k].options, EntryAt(run, k, id), EntryAt(run, k, other);
            && e.status in {Pending, Claimed}
            && (e.status == Claimed ==> e.leaseExpiresAt.Some? && e.leaseExpiresAt.value < run.steps[k].now)
            && (options.processType == "" || e.processType == options.processType) && options.filter(e)
            && (o.status == Pending && (options.processType == "" || o.processType == options.processType) && options.filter(o)
                ==> e.createdAt <= o.createdAt)
    ensures var options, e := run.steps[k].options, EntryAt(run, k + 1, id);
            && e.status == Claimed && e.leaseOwner == Some(options.leaseOwner)
            && e.leaseExpiresAt == Some(run.steps[k].now + options.leaseTtlMs)
            && e.attempts == EntryAt(run, k, id).attempts + 1
  {
    assert Legal(At(run, k), run.steps[k]);
    AllWellFormed(run, k, other);
    AllWellFormed(run, k, id);
  }

  // A claim that comes back with nothing has left nothing behind that it could have had.
  lemma NothingToClaim(run: Run, k: nat, id: Id)
    requires LegalRun(run) && k < |run.steps| && run.steps[k].Claim? && run.steps[k].picked.None? && Present(run, k, id)
    ensures At(run, k + 1) == At(run, k)
    ensures var options, e := run.steps[k].options, EntryAt(run, k, id);
            (options.processType == "" || e.processType == options.processType) && options.filter(e) ==>
              e.status != Pending && (e.status == Claimed ==> e.leaseExpiresAt.Some? && run.steps[k].now <= e.leaseExpiresAt.value)
  {
    assert Legal(At(run, k), run.steps[k]);
    AllWellFormed(run, k, id);
  }

  // ----- leases -----------------------------------------------------------------------------

  // A claimed entry is, field by field, what the latest successful claim left behind.
  lemma {:induction false} LeaseProvenance(run: Run, k: nat, id: Id) returns (i: nat)
    requires LegalRun(run) && ClaimedAt(run, k, id)
    ensures i < k && ClaimsIt(run.steps[i], id)
    ensures EntryAt(run, k, id).leaseOwner == Some(run.steps[i].options.leaseOwner)
    ensures EntryAt(run, k, id).leaseExpiresAt == Some(Expiry(run.steps[i]))
    ensures forall m | i < m <= k :: Present(run, m, id) && EntryAt(run, m, id) == EntryAt(run, k, id)
    ensures forall m | i < m < k :: !ClaimsIt(run.steps[m], id)
  {
    hide Do, At, LegalRun;
    Stepped(run, k, id);
    if ClaimsIt(run.steps[k - 1], id) {
      i := k - 1;
    } else {
      assert Present(run, k - 1, id) && EntryAt(run, k - 1, id) == EntryAt(run, k, id);
      i := LeaseProvenance(run, k - 1, id);
    }
  }

  // No entry is lost: in every state a pending one can be claimed, and a claimed one again as soon as
  // the lease of its latest claim has run out.
  lemma ClaimableIff(run: Run, k: nat, id: Id, options: ClaimOptions, now: int) returns (i: nat)
    requires LegalRun(run) && Present(run, k, id)
    ensures ClaimedAt(run, k, id) ==> i < k && ClaimsIt(run.steps[i], id) && forall m | i < m < k :: !ClaimsIt(run.steps[m], id)
    ensures Eligible(EntryAt(run, k, id), options, now) <==>
              && (options.processType == "" || EntryAt(run, k, id).processType == options.processType)
              && options.filter(EntryAt(run, k, id))
              && (EntryAt(run, k, id).status == Pending || (ClaimedAt(run, k, id) && Expiry(run.steps[i]) < now))
  {
    hide Do, LegalRun;
    i := 0;
    AllWellFormed(run, k, id);
    if ClaimedAt(run, k, id) {
      i := LeaseProvenance(run, k, id);
    }
  }

  ghost predicate StaysClaimed(run: Run, i: nat, k: nat, id: Id) {
    forall m | i < m <= k :: ClaimedAt(run, m, id)
  }

  ghost predicate NoNegativeTtl(run: Run) {
    forall m | 0 <= m < |run.steps| && run.steps[m].Claim? :: run.steps[m].options.leaseTtlMs >= 0
  }

  ghost predicate LeaseLastsUntil(run: Run, k: nat, id: Id, time: int) {
    && Present(run, k, id)
    && EntryAt(run, k, id).leaseExpiresAt.Some?
    && EntryAt(run, k, id).leaseExpiresAt.value >= time
  }

  // While an entry stays claimed, its recorded expiry never falls below that of an earlier claim.
  lemma {:induction false} ExpiryHolds(run: Run, i: nat, k: nat, id: Id)
    requires LegalRun(run) && NoNegativeTtl(run)
    requires i < k <= |run.steps| && ClaimsIt(run.steps[i], id) && StaysClaimed(run, i, k, id)
    ensures LeaseLastsUntil(run, k, id, Expiry(run.steps[i]))
  {
    hide Do, At, LegalRun;
    assert ClaimedAt(run, k, id);
    Stepped(run, k, id);
    if k - 1 > i {
      ExpiryHolds(run, i, k - 1, id);
    }
  }

  // Exclusion: a later claim of the same entry waits for the earlier lease to run out on the shared
  // clock, unless some step took the entry out of `claimed` in between.
  lemma NoOverlappingLeases(run: Run, i: nat, j: nat, id: Id)
    requires LegalRun(run) && NoNegativeTtl(run)
    requires i < j < |run.steps| && ClaimsIt(run.steps[i], id) && ClaimsIt(run.steps[j], id)
    ensures Expiry(run.steps[i]) < run.steps[j].now <= At(run, j).clock || !StaysClaimed(run, i, j, id)
  {
    assert Legal(At(run, j), run.steps[j]);
    if StaysClaimed(run, i, j, id) {
      ExpiryHolds(run, i, j, id);
    }
  }

  // Where an ending leads, and that it moves nothing else.
  lemma EndingOutcome(run: Run, j: nat, id: Id, owner: Owner)
    requires LegalRun(run) && EndsClaim(run, j, id, owner)
    ensures Present(run, j + 1, id)
    ensures var before, after := EntryAt(run, j, id), EntryAt(run, j + 1, id);
            && after.status != Claimed && after.leaseOwner == None && after.leaseExpiresAt == None
            && after.attempts == before.attempts && after.maxAttempts == before.maxAttempts
            && after.payload == before.payload && after.processType == before.processType
            && (run.steps[j].Release? ==> after.status == Pending && after.errorHistory == before.errorHistory)
            && (run.steps[j].Complete? ==> after.status == Completed && after.errorHistory == before.errorHistory)
            && (run.steps[j].FailWrite? ==> after.status in {Pending, Failed} && before.errorHistory < after.errorHistory)
    ensures forall other | other != id ::
              (other in At(run, j + 1).entries <==> other in At(run, j).entries)
              && (other in At(run, j).entries ==> At(run, j + 1).entries[other] == At(run, j).entries[other])
  {
    assert Legal(At(run, j), run.steps[j]);
  }

  // Fencing: whoever ends a claim is the owner of the latest claim, and nothing touched the entry
  // since that claim.
  lemma OnlyLatestClaimerEnds(run: Run, j: nat, id: Id, owner: Owner) returns (i: nat)
    requires LegalRun(run) && EndsClaim(run, j, id, owner)
    ensures i < j && ClaimsIt(run.steps[i], id) && run.steps[i].options.leaseOwner == owner
    ensures forall m | i < m < j :: !ClaimsIt(run.steps[m], id)
    ensures forall m | i < m <= j :: Present(run, m, id) && EntryAt(run, m, id) == EntryAt(run, j, id)
    ensures !ClaimedAt(run, j + 1, id)
  {
    hide Do, At, LegalRun;
    i := LeaseProvenance(run, j, id);
    EndingOutcome(run, j, id, owner);
  }

  // Each claim is ended at most once: between two effective endings the entry was claimed again, by
  // the one who ends it the second time.
  lemma OneEndPerClaim(run: Run, j1: nat, j2: nat, id: Id, owner1: Owner, owner2: Owner) returns (i: nat)
    requires LegalRun(run) && j1 < j2
    requires EndsClaim(run, j1, id, owner1) && EndsClaim(run, j2, id, owner2)
    ensures j1 < i < j2 && ClaimsIt(run.steps[i], id) && run.steps[i].options.leaseOwner == owner2
  {
    i := OnlyLatestClaimerEnds(run, j2, id, owner2);
    var _ := OnlyLatestClaimerEnds(run, j1, id, owner1);
    assert i >= j1 by {
      assert !ClaimedAt(run, j1 + 1, id);
    }
  }

  ghost predicate Closed(e: Entry) {
    e.status in {Failed, Completed, Discarded}
  }

  // Only an explicit requeue makes a failed, completed or discarded entry claimable again.
  lemma {:induction false} OnlyRequeueReopens(run: Run, i: nat, j: nat, id: Id) returns (k: nat)
    requires LegalRun(run) && i < j && Present(run, i, id) && Present(run, j, id)
    requires Closed(EntryAt(run, i, id)) && !Closed(EntryAt(run, j, id))
    ensures i <= k < j && run.steps[k].Requeue? && run.steps[k].id == id
    decreases j
  {
    hide Do, At, LegalRun;
    Stepped(run, j, id);
    UsedStays(run, i, j - 1, id);
    if Closed(EntryAt(run, j - 1, id)) {
      k := j - 1;
    } else {
      k := OnlyRequeueReopens(run, i, j - 1, id);
    }
  }

  lemma {:induction false} UsedStays(run: Run, i: nat, j: nat, id: Id)
    requires LegalRun(run) && i <= j <= |run.steps| && Present(run, i, id)
    ensures id in At(run, j).used
  {
    if i == j {
      AllWellFormed(run, i, id);
    } else {
      UsedStays(run, i, j - 1, id);
      assert Leads(run, j - 1) by {
        var step := run.steps[j - 1];
      }
    }
  }

  // ----- accounting -------------------------------------------------------------------------

  // Successful claims of `id` since it was pushed or its attempts were last reset.
  ghost function ClaimsSinceReset(run: Run, k: nat, id: Id): nat
    requires k <= |run.steps|
  {
    if k == 0 then 0
    else
      var step := run.steps[k - 1];
      if step.Push? && step.id == id then 0
      else if step.Requeue? && step.id == id && step.resetAttempts then 0
      else ClaimsSinceReset(run, k - 1, id) + if ClaimsIt(step, id) then 1 else 0
  }

  ghost function CommittedFails(run: Run, k: nat, id: Id): nat
    requires k <= |run.steps|
  {
    if k == 0 then 0 else CommittedFails(run, k - 1, id) + if CommitsFail(run, k - 1, id) then 1 else 0
  }

  lemma {:induction false} NoFailBeforePush(run: Run, k: nat, id: Id)
    requires LegalRun(run) && k <= |run.steps| && id !in At(run, k).used
    ensures CommittedFails(run, k, id) == 0
  {
    if k > 0 {
      assert Legal(At(run, k - 1), run.steps[k - 1]);
      NoFailBeforePush(run, k - 1, id);
      if Present(run, k - 1, id) {
        AllWellFormed(run, k - 1, id);
      }
    }
  }

  // `attempts` counts claims, the history has one item per committed fail plus the initial one.
  lemma {:induction false} Accounting(run: Run, k: nat, id: Id)
    requires LegalRun(run) && Present(run, k, id)
    ensures EntryAt(run, k, id).attempts == ClaimsSinceReset(run, k, id)
    ensures |EntryAt(run, k, id).errorHistory| == 1 + CommittedFails(run, k, id)
  {
    hide Do, At, LegalRun;
    Stepped(run, k, id);
    if Present(run, k - 1, id) {
      Accounting(run, k - 1, id);
    } else {
      NoFailBeforePush(run, k - 1, id);
    }
  }

  // ----- fail() against its atomic reference ------------------------------------------------

  ghost predicate CallUnderWay(run: Run, i: nat, k: nat) {
    && i < k <= |run.steps|
    && run.steps[i].FailRead?
    && HeldBy(At(run, i).entries, run.steps[i].id, run.steps[i].owner)
    && forall m | i < m < k :: !(run.steps[m].FailWrite? && run.steps[m].call == run.steps[i].call)
  }

  ghost predicate ReclaimedBetween(run: Run, i: nat, k: nat, id: Id, owner: Owner)
    requires k <= |run.steps|
  {
    exists m | i < m < k :: ClaimsIt(run.steps[m], id) && run.steps[m].options.leaseOwner == owner
  }

  // What the read decided is what the write will find in its hands.
  lemma {:induction false} CallKept(run: Run, i: nat, k: nat)
    requires LegalRun(run) && CallUnderWay(run, i, k)
    ensures run.steps[i].call in At(run, k).calls
    ensures At(run, k).calls[run.steps[i].call] == FailCallFor(EntryAt(run, i, run.steps[i].id), run.steps[i].id, run.steps[i].owner, run.steps[i].error)
  {
    hide Do, At, LegalRun;
    SteppedCalls(run, k, run.steps[i].call);
    if i + 1 < k {
      CallKept(run, i, k - 1);
    }
  }

  // Between the read and the write, an entry still held by the same owner is the entry that was read.
  lemma {:induction false} HeldIsUnchanged(run: Run, i: nat, k: nat)
    requires LegalRun(run) && CallUnderWay(run, i, k)
    requires !ReclaimedBetween(run, i, k, run.steps[i].id, run.steps[i].owner)
    requires HeldBy(At(run, k).entries, run.steps[i].id, run.steps[i].owner)
    ensures At(run, k).entries[run.steps[i].id] == EntryAt(run, i, run.steps[i].id)
  {
    hide Do, At, LegalRun;
    Stepped(run, k, run.steps[i].id);
    if i + 1 < k {
      HeldIsUnchanged(run, i, k - 1);
    }
  }

  lemma {:induction false} MaxAttemptsFixed(run: Run, i: nat, k: nat, id: Id)
    requires LegalRun(run) && i <= k && Present(run, i, id) && Present(run, k, id)
    ensures EntryAt(run, k, id).maxAttempts == EntryAt(run, i, id).maxAttempts
    decreases k
  {
    hide Do, At, LegalRun;
    if i < k {
      Stepped(run, k, id);
      UsedStays(run, i, k - 1, id);
      MaxAttemptsFixed(run, i, k - 1, id);
    }
  }

  // Refinement: a fail whose owner does not claim the entry again between the read and the write
  // commits exactly what an atomic fail at write time would, or conflicts and writes nothing.
  lemma TwoStepFailIsAtomic(run: Run, i: nat, j: nat)
    requires LegalRun(run) && j < |run.steps| && CallUnderWay(run, i, j)
    requires run.steps[j].FailWrite? && run.steps[j].call == run.steps[i].call
    requires !ReclaimedBetween(run, i, j, run.steps[i].id, run.steps[i].owner)
    ensures At(run, j + 1).entries
            == AtomicFailIn(At(run, j).entries, run.steps[i].id, run.steps[i].owner, run.steps[i].error, run.steps[j].now)
    ensures !HeldBy(At(run, j).entries, run.steps[i].id, run.steps[i].owner) ==> At(run, j + 1).entries == At(run, j).entries
  {
    CallKept(run, i, j);
    if HeldBy(At(run, j).entries, run.steps[i].id, run.steps[i].owner) {
      HeldIsUnchanged(run, i, j);
    }
  }

  // The exact condition, whatever happened in between: a write that finds its lease is the atomic
  // one if and only if the read saw the attempts count that the write finds.
  lemma TwoStepFailIsAtomicIff(run: Run, i: nat, j: nat)
    requires LegalRun(run) && j < |run.steps| && CallUnderWay(run, i, j)
    requires run.steps[j].FailWrite? && run.steps[j].call == run.steps[i].call
    requires HeldBy(At(run, j).entries, run.steps[i].id, run.steps[i].owner)
    ensures At(run, j + 1).entries
            == AtomicFailIn(At(run, j).entries, run.steps[i].id, run.steps[i].owner, run.steps[i].error, run.steps[j].now)
            <==> ClaimsSinceReset(run, i, run.steps[i].id) == ClaimsSinceReset(run, j, run.steps[i].id)
  {
    var id := run.steps[i].id;
    CallKept(run, i, j);
    MaxAttemptsFixed(run, i, j, id);
    Accounting(run, i, id);
    Accounting(run, j, id);
    FailWriteIsAtomicIff(At(run, j).entries, EntryAt(run, i, id), id, run.steps[i].owner, run.steps[i].error, run.steps[j].now);
  }

  // ----- the attempts cap -------------------------------------------------------------------

  ghost predicate NeverRequeued(run: Run, id: Id) {
    forall k | 0 <= k < |run.steps| :: !(run.steps[k].Requeue? && run.steps[k].id == id)
  }

  // Every committed fail has used up a claim of its own.
  lemma {:induction false} FailsBelowAttempts(run: Run, k: nat, id: Id)
    requires LegalRun(run) && NeverRequeued(run, id) && Present(run, k, id)
    ensures CommittedFails(run, k, id) <= EntryAt(run, k, id).attempts
    ensures ClaimedAt(run, k, id) ==> CommittedFails(run, k, id) < EntryAt(run, k, id).attempts
  {
    hide Do, At, LegalRun;
    Stepped(run, k, id);
    if Present(run, k - 1, id) {
      FailsBelowAttempts(run, k - 1, id);
    } else {
      NoFailBeforePush(run, k - 1, id);
    }
  }

  // Step i is the read of the fail that step j writes.
  ghost predicate ItsRead(run: Run, i: nat, j: nat) {
    && j < |run.steps| && CallUnderWay(run, i, j)
    && run.steps[j].FailWrite? && run.steps[j].call == run.steps[i].call
  }

  lemma {:induction false} CallSince(run: Run, k: nat, call: CallId) returns (i: nat)
    requires LegalRun(run) && k <= |run.steps| && call in At(run, k).calls
    ensures CallUnderWay(run, i, k) && run.steps[i].call == call && run.steps[i].id == At(run, k).calls[call].id
  {
    assert k > 0 && Leads(run, k - 1) by {
      assert run.states[0] == START;
      var step := run.steps[k - 1];
    }
    var s, step := At(run, k - 1), run.steps[k - 1];
    hide LegalRun, Leads, HeldBy;
    DoOnCalls(s, step, call);
    if step.FailRead? && step.call == call {
      i := k - 1;
    } else {
      i := CallSince(run, k - 1, call);
    }
  }

  // Every committed fail of an entry is the write of some read of it.
  lemma TheRead(run: Run, j: nat, id: Id) returns (i: nat)
    requires LegalRun(run) && CommitsFail(run, j, id)
    ensures ItsRead(run, i, j) && run.steps[i].id == id
  {
    hide LegalRun, HeldBy;
    i := CallSince(run, j, run.steps[j].call);
  }

  // A committed fail closes the entry exactly when its read saw `maxAttempts` claims; otherwise it
  // leaves it pending.
  lemma {:induction false} ClosesIff(run: Run, i: nat, j: nat, id: Id)
    requires LegalRun(run) && ItsRead(run, i, j) && run.steps[i].id == id && CommitsFail(run, j, id)
    ensures Present(run, j + 1, id)
    ensures var max := EntryAt(run, j, id).maxAttempts;
            EntryAt(run, j + 1, id).status ==
              if max.Some? && max.value != 0 && ClaimsSinceReset(run, i, id) >= max.value then Failed else Pending
  {
    CallKept(run, i, j);
    MaxAttemptsFixed(run, i, j, id);
    Accounting(run, i, id);
    EndingOutcome(run, j, id, At(run, j).calls[run.steps[j].call].leaseOwner);
    hide LegalRun, ClaimsSinceReset;
    Stepped(run, j + 1, id);
  }

  // And it records the error it was called with, and the attempts that its read saw.
  lemma {:induction false} FailIsRecorded(run: Run, i: nat, j: nat, id: Id)
    requires LegalRun(run) && ItsRead(run, i, j) && run.steps[i].id == id && CommitsFail(run, j, id)
    ensures Present(run, j + 1, id)
    ensures var before, after := EntryAt(run, j, id), EntryAt(run, j + 1, id);
            && after.error == run.steps[i].error
            && after.errorHistory ==
                 before.errorHistory + [HistoryItem(run.steps[i].error, run.steps[j].now, ClaimsSinceReset(run, i, id))]
  {
    CallKept(run, i, j);
    Accounting(run, i, id);
    EndingOutcome(run, j, id, At(run, j).calls[run.steps[j].call].leaseOwner);
    hide LegalRun, ClaimsSinceReset;
    Stepped(run, j + 1, id);
  }

  // A closed entry commits no more fails.
  lemma {:induction false} ClosedForGood(run: Run, m: nat, k: nat, id: Id)
    requires LegalRun(run) && NeverRequeued(run, id) && m <= k <= |run.steps|
    requires Present(run, m, id) && Closed(EntryAt(run, m, id))
    ensures CommittedFails(run, k, id) == CommittedFails(run, m, id)
    ensures Present(run, k, id) ==> Closed(EntryAt(run, k, id))
    decreases k
  {
    hide Do, At, LegalRun;
    if m < k {
      ClosedForGood(run, m, k - 1, id);
      UsedStays(run, m, k - 1, id);
      if Present(run, k, id) {
        Stepped(run, k, id);
      }
    }
  }

  // ----- runs that go on --------------------------------------------------------------------

  ghost predicate Extends(longer: Run, run: Run) {
    run.steps <= longer.steps && run.states <= longer.states
  }

  // However the run goes on without a requeue of the entry, no more than `max` fails of it commit.
  ghost predicate CapKept(run: Run, id: Id, max: nat) {
    forall longer | Extends(longer, run) && LegalRun(longer) && NeverRequeued(longer, id) ::
      CommittedFails(longer, |longer.steps|, id) <= max
  }

  lemma SameStates(longer: Run, run: Run, k: nat)
    requires Extends(longer, run) && LegalRun(run) && LegalRun(longer) && k <= |run.steps|
    ensures At(longer, k) == At(run, k)
    ensures forall m | 0 <= m < k :: longer.steps[m] == run.steps[m]
  {
    hide Leads;
  }

  lemma {:induction false} SameFails(longer: Run, run: Run, k: nat, id: Id)
    requires Extends(longer, run) && LegalRun(run) && LegalRun(longer) && k <= |run.steps|
    ensures CommittedFails(longer, k, id) == CommittedFails(run, k, id)
  {
    if k > 0 {
      hide LegalRun, At, HeldBy;
      SameStates(longer, run, k);
      SameStates(longer, run, k - 1);
      SameFails(longer, run, k - 1, id);
    }
  }

  // One more step at the end of a run.
  ghost function Then(run: Run, step: Step): Run
    requires |run.states| > 0
  {
    Run(run.steps + [step], run.states + [Do(run.states[|run.states| - 1], step)])
  }

  lemma ThenIsLegal(run: Run, step: Step, id: Id)
    requires LegalRun(run) && NeverRequeued(run, id) && !step.Requeue? && Legal(run.states[|run.steps|], step)
    ensures LegalRun(Then(run, step)) && NeverRequeued(Then(run, step), id) && Extends(Then(run, step), run)
    ensures var n := |run.steps|;
            && |Then(run, step).steps| == n + 1 && Then(run, step).steps[n] == step
            && At(Then(run, step), n) == At(run, n) && At(Then(run, step), n + 1) == Do(At(run, n), step)
  {
    hide Legal, Do;
    var longer := Then(run, step);
    forall k | 0 <= k < |longer.steps| ensures Leads(longer, k) {
      if k < |run.steps| {
        assert Leads(run, k) by { var was := run.steps[k]; }
      }
    }
  }

  lemma {:induction false} FailsThen(longer: Run, run: Run, id: Id)
    requires LegalRun(run) && LegalRun(longer) && Extends(longer, run) && |longer.steps| == |run.steps| + 1
    ensures CommittedFails(longer, |longer.steps|, id) ==
            CommittedFails(run, |run.steps|, id) + if CommitsFail(longer, |run.steps|, id) then 1 else 0
  {
    hide LegalRun, CommitsFail, Extends;
    SameFails(longer, run, |run.steps|, id);
  }

  // No call has that id yet.
  lemma {:induction false} FreshCall(calls: set<CallId>) returns (call: CallId)
    ensures forall c | c in calls :: c < call
    decreases calls
  {
    call := 0;
    if calls != {} {
      var c :| c in calls;
      var above := FreshCall(calls - {c});
      call := if above > c then above else c + 1;
      forall d | d in calls ensures d < call {
        assert d == c || d in calls - {c};
      }
    }
  }

  // An entry that is pending can always be claimed and failed once more.
  lemma OneMoreFail(run: Run, id: Id) returns (longer: Run)
    requires LegalRun(run) && NeverRequeued(run, id)
    requires Present(run, |run.steps|, id) && EntryAt(run, |run.steps|, id).status == Pending
    ensures Extends(longer, run) && LegalRun(longer) && NeverRequeued(longer, id)
    ensures CommittedFails(longer, |longer.steps|, id) == CommittedFails(run, |run.steps|, id) + 1
  {
    var n, s := |run.steps|, At(run, |run.steps|);
    var e := s.entries[id];
    AllWellFormed(run, n, id);
    var call := FreshCall(s.calls.Keys);
    hide LegalRun, CommittedFails, Then, NeverRequeued, At;
    var options := ClaimOptions("worker", 0, "", (o: Entry) => o.createdAt == e.createdAt);
    var claim, read, write := Claim(Some(id), options, s.clock), FailRead(call, id, "worker", e.error), FailWrite(call, s.clock);
    assert Legal(s, claim);
    ClaimThenFail(s, id, options, call, e.error);
    var claimed := Taken(run, claim, id);
    var begun := Taken(claimed, read, id);
    longer := Taken(begun, write, id);
    FailsThen(claimed, run, id);
    FailsThen(begun, claimed, id);
    FailsThen(longer, begun, id);
  }

  // The step is taken.
  lemma Taken(run: Run, step: Step, id: Id) returns (longer: Run)
    requires LegalRun(run) && NeverRequeued(run, id) && !step.Requeue? && Legal(At(run, |run.steps|), step)
    ensures |run.states| > 0 && longer == Then(run, step) && LegalRun(longer) && NeverRequeued(longer, id) && Extends(longer, run)
    ensures var n := |run.steps|;
            && |longer.steps| == n + 1 && longer.steps[n] == step
            && At(longer, n) == At(run, n) && At(longer, n + 1) == Do(At(run, n), step)
  {
    hide Legal, Do, Leads, Then;
    ThenIsLegal(run, step, id);
    longer := Then(run, step);
  }

  // The states that a claim and a fail after it lead through.
  lemma ClaimThenFail(s: State, id: Id, options: ClaimOptions, call: CallId, error: ErrorInfo)
    requires id in s.entries && call !in s.calls
    ensures var claimed := Do(s, Claim(Some(id), options, s.clock));
            var begun := Do(claimed, FailRead(call, id, options.leaseOwner, error));
            && Legal(claimed, FailRead(call, id, options.leaseOwner, error))
            && Legal(begun, FailWrite(call, s.clock))
            && call in begun.calls && begun.calls[call].id == id && begun.calls[call].leaseOwner == options.leaseOwner
            && HeldBy(begun.entries, id, options.leaseOwner)
  {
  }

  // The exact condition, at the fail that reaches the cap: no further one ever commits, however the run
  // goes on without a requeue, if and only if the read of that fail saw at least `maxAttempts` claims.
  lemma {:induction false} CapKeptIff(run: Run, i: nat, id: Id, max: nat)
    requires LegalRun(run) && NeverRequeued(run, id) && |run.steps| > 0
    requires var j := |run.steps| - 1; CommitsFail(run, j, id) && ItsRead(run, i, j) && run.steps[i].id == id
    requires max > 0 && EntryAt(run, |run.steps| - 1, id).maxAttempts == Some(max)
    requires CommittedFails(run, |run.steps|, id) == max
    ensures CapKept(run, id, max) <==> ClaimsSinceReset(run, i, id) >= max
  {
    var n := |run.steps|;
    ClosesIff(run, i, n - 1, id);
    if ClaimsSinceReset(run, i, id) >= max {
      forall longer | Extends(longer, run) && LegalRun(longer) && NeverRequeued(longer, id)
        ensures CommittedFails(longer, |longer.steps|, id) <= max
      {
        StaysClosed(longer, run, id);
      }
    } else {
      var longer := OneMoreFail(run, id);
    }
  }

  lemma {:induction false} StaysClosed(longer: Run, run: Run, id: Id)
    requires Extends(longer, run) && LegalRun(run) && LegalRun(longer) && NeverRequeued(longer, id)
    requires Present(run, |run.steps|, id) && Closed(EntryAt(run, |run.steps|, id))
    ensures CommittedFails(longer, |longer.steps|, id) == CommittedFails(run, |run.steps|, id)
  {
    SameStates(longer, run, |run.steps|);
    SameFails(longer, run, |run.steps|, id);
    hide LegalRun, At;
    ClosedForGood(longer, |run.steps|, |longer.steps|, id);
  }

  // ----- when no read is ever stale ---------------------------------------------------------

  // No claim of the entry commits for an owner who has a fail of it under way.
  ghost predicate NoReclaimDuringFail(run: Run, id: Id) {
    forall k, call |
      0 <= k < |run.steps| && ClaimsIt(run.steps[k], id) && call in At(run, k).calls && At(run, k).calls[call].id == id ::
      At(run, k).calls[call].leaseOwner != run.steps[k].options.leaseOwner
  }

  // Then every call under way on the entry, while it is held, has seen its current attempts.
  lemma {:induction false} CallsAreFresh(run: Run, k: nat, call: CallId, id: Id)
    requires LegalRun(run) && NoReclaimDuringFail(run, id) && k <= |run.steps|
    requires call in At(run, k).calls && At(run, k).calls[call].id == id
    ensures var f := At(run, k).calls[call];
            id in At(run, k).used &&
            (HeldBy(At(run, k).entries, id, f.leaseOwner) ==> f == FailCallFor(At(run, k).entries[id], id, f.leaseOwner, f.error))
  {
    assert k > 0;
    var s, step := At(run, k - 1), run.steps[k - 1];
    assert Legal(s, step);
    DoOnCalls(s, step, call);
    var f := At(run, k).calls[call];
    if call in s.calls && s.calls[call] == f {
      CallsAreFresh(run, k - 1, call, id);
    } else {
      AllWellFormed(run, k - 1, step.id);
    }
    if HeldBy(At(run, k).entries, id, f.leaseOwner) {
      Stepped(run, k, id);
      assert !ClaimsIt(step, id);
    }
  }

  lemma {:induction false} ReachesCap(run: Run, k: nat, id: Id, max: nat) returns (j: nat)
    requires k <= |run.steps| && 0 < max <= CommittedFails(run, k, id)
    ensures j < k && CommitsFail(run, j, id) && CommittedFails(run, j + 1, id) == max
  {
    hide CommitsFail;
    if CommittedFails(run, k - 1, id) >= max {
      j := ReachesCap(run, k - 1, id, max);
    } else {
      j := k - 1;
    }
  }

  // The fail that reaches the cap closes the entry.
  lemma FreshFailCloses(run: Run, j: nat, id: Id, max: nat)
    requires LegalRun(run) && NoReclaimDuringFail(run, id) && NeverRequeued(run, id)
    requires CommitsFail(run, j, id) && CommittedFails(run, j + 1, id) == max
    requires max > 0 && EntryAt(run, j, id).maxAttempts == Some(max)
    ensures Present(run, j + 1, id) && Closed(EntryAt(run, j + 1, id))
  {
    var i := TheRead(run, j, id);
    ClosesIff(run, i, j, id);
    FailsBelowAttempts(run, j, id);
    CallKept(run, i, j);
    CallsAreFresh(run, j, run.steps[j].call, id);
    Accounting(run, i, id);
  }

  // So with a positive cap at most `maxAttempts` fails of the entry ever commit, and the last of them
  // closes it.
  lemma {:induction false} AtMostMaxAttemptsFails(run: Run, k: nat, id: Id, max: nat)
    requires LegalRun(run) && NoReclaimDuringFail(run, id) && NeverRequeued(run, id)
    requires max > 0 && Present(run, k, id) && EntryAt(run, k, id).maxAttempts == Some(max)
    ensures CommittedFails(run, k, id) <= max
    ensures CommittedFails(run, k, id) == max ==> Closed(EntryAt(run, k, id))
  {
    hide LegalRun, At, NoReclaimDuringFail, CommitsFail, NeverRequeued;
    if CommittedFails(run, k, id) >= max {
      var j := ReachesCap(run, k, id, max);
      PresentAtCommit(run, j, id);
      MaxAttemptsFixed(run, j, k, id);
      FreshFailCloses(run, j, id, max);
      ClosedForGood(run, j + 1, k, id);
    }
  }

  lemma PresentAtCommit(run: Run, j: nat, id: Id)
    requires CommitsFail(run, j, id)
    ensures Present(run, j, id)
  {
  }

  const ERROR := ErrorInfo("Error", "boom", None)
  const INPUT := PushInput("payment", "shop", None, "{}", ERROR, Some(2), map[])
  const WORKER: ClaimOptions := ClaimOptions("worker", 1000, "", _ => true)

  const ENTRIES: seq<Entry> :=
    var stale := FailCall(0, "worker", ERROR, Pending, 1);
    var e0 := NewEntry(INPUT, 0);
    var e1 := ClaimUpdate(e0, WORKER, 0);
    var e2 := FailUpdate(e1, stale, 0);
    var e3 := ClaimUpdate(e2, WORKER, 0);
    var e4 := FailUpdate(e3, stale, 0);
    var e5 := ClaimUpdate(e4, WORKER, 0);
    [e0, e1, e2, e3, e4, e5, FailUpdate(e5, FailCallFor(e5, 0, "worker", ERROR), 0)]

  ghost function OverlappingFails(): Run {
    var stale := FailCall(0, "worker", ERROR, Pending, 1);
    var last := FailCallFor(ENTRIES[5], 0, "worker", ERROR);
    Run(
     [Push(0, INPUT, 0),
      Claim(Some(0), WORKER, 0),
      FailRead(0, 0, "worker", ERROR),
      FailRead(1, 0, "worker", ERROR),
      FailWrite(0, 0),
      Claim(Some(0), WORKER, 0),
      FailWrite(1, 0),
      Claim(Some(0), WORKER, 0),
      FailRead(2, 0, "worker", ERROR),
      FailWrite(2, 0)],
     [START,
      State(0, map[0 := ENTRIES[0]], {0}, map[]),
      State(0, map[0 := ENTRIES[1]], {0}, map[]),
      State(0, map[0 := ENTRIES[1]], {0}, map[0 := stale]),
      State(0, map[0 := ENTRIES[1]], {0}, map[0 := stale, 1 := stale]),
      State(0, map[0 := ENTRIES[2]], {0}, map[1 := stale]),
      State(0, map[0 := ENTRIES[3]], {0}, map[1 := stale]),
      State(0, map[0 := ENTRIES[4]], {0}, map[]),
      State(0, map[0 := ENTRIES[5]], {0}, map[]),
      State(0, map[0 := ENTRIES[5]], {0}, map[2 := last]),
      State(0, map[0 := ENTRIES[6]], {0}, map[])])
  }

  lemma ReadsLead(k: nat)
    requires k < 4
    ensures Leads(OverlappingFails(), k)
  {
  }

  lemma WritesLead(k: nat)
    requires 4 <= k < 7
    ensures Leads(OverlappingFails(), k)
  {
  }

  lemma LastFailLeads(k: nat)
    requires 7 <= k < 10
    ensures Leads(OverlappingFails(), k)
  {
  }

  lemma OverlappingFailsRun()
    ensures LegalRun(OverlappingFails())
  {
    var run := OverlappingFails();
    assert |run.steps| == 10 && |run.states| == 11 && run.states[0] == START;
    hide Do, Legal, OverlappingFails, Leads;
    forall k | 0 <= k < |run.steps| ensures Leads(run, k) {
      if k < 4 {
        ReadsLead(k);
      } else if k < 7 {
        WritesLead(k);
      } else {
        LastFailLeads(k);
      }
    }
  }

  // The condition is needed. Two overlapping fails of one owner read the same attempts count, and the
  // owner claims again before the second one writes: three fails commit under a cap of two.
  lemma CapExceededByReclaim() returns (run: Run)
    ensures LegalRun(run) && NeverRequeued(run, 0) && !NoReclaimDuringFail(run, 0)
    ensures Present(run, |run.steps|, 0) && EntryAt(run, |run.steps|, 0).maxAttempts == Some(2)
    ensures CommittedFails(run, |run.steps|, 0) == 3
  {
    run := OverlappingFails();
    OverlappingFailsRun();
    StaleWrite();
    hide OverlappingFails, LegalRun, Do, CommittedFails;
    assert ClaimsIt(run.steps[5], 0) && 1 in At(run, 5).calls;
    Accounting(run, 10, 0);
  }

  // In that run the stale write reopens an entry that an atomic fail would have closed.
  lemma StaleFailReopens() returns (run: Run, k: nat)
    ensures LegalRun(run) && k < |run.steps| && CommitsFail(run, k, 0)
    ensures Present(run, k, 0) && StatusAfterFail(EntryAt(run, k, 0)) == Failed
    ensures Present(run, k + 1, 0) && EntryAt(run, k + 1, 0).status == Pending
  {
    run, k := OverlappingFails(), 6;
    OverlappingFailsRun();
    StaleWrite();
    hide OverlappingFails, StatusAfterFail, LegalRun;
  }

  // The states that matter around the stale write of that run.
  lemma StaleWrite()
    ensures var run := OverlappingFails();
            var stale := FailCall(0, "worker", ERROR, Pending, 1);
            && |run.steps| == 10 && |run.states| == 11
            && run.steps[5] == Claim(Some(0), WORKER, 0) && run.steps[6] == FailWrite(1, 0)
            && (forall k | 0 <= k < 10 :: !run.steps[k].Requeue?)
            && run.states[5].calls == map[1 := stale]
            && run.states[6] == State(0, map[0 := ENTRIES[3]], {0}, map[1 := stale])
            && run.states[7].entries == map[0 := ENTRIES[4]]
            && run.states[10].entries == map[0 := ENTRIES[6]]
    ensures Held(ENTRIES[3], "worker") && StatusAfterFail(ENTRIES[3]) == Failed
    ensures ENTRIES[4].status == Pending
    ensures ENTRIES[6].maxAttempts == Some(2) && |ENTRIES[6].errorHistory| == 4
  {
  }
}
