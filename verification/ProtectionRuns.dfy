// One protected path of a collection over its whole life: documents are saved and deleted, the active
// version moves on while the stored versions stay readable, and rotations read values and later write
// them back.

module ProtectionRuns {
  import opened Prelude
  import opened Protection

  type Id = nat

  // ----- rotation and its status check ------------------------------------------------------

  // What rotation leaves of one stored value: reversed and protected again under the active version,
  // or left alone when there is nothing that can be reversed.
  function RotateOne(c: Crypto, p: DataProtection, bits: nat, stored: Text): Text {
    match Getter(c, p, stored)
    case Revealed(value) =>
      (match Setter(c, p, bits, value)
       case Success(Some(t)) => t
       case _ => stored)
    case _ => stored
  }

  function Rotated(c: Crypto, p: DataProtection, bits: Id -> nat, stored: map<Id, Text>): map<Id, Text> {
    map id | id in stored :: RotateOne(c, p, bits(id), stored[id])
  }

  predicate OnActiveVersion(p: DataProtection, stored: Text) {
    stored != Many([]) && ExtractVersion(stored).0 == p.activeVersion
  }

  // On the active version is what starts with its tag; without any tag, what is of version v0.
  lemma OnActiveIsPrefixed(p: DataProtection, stored: Text)
    requires VersionTag(p.activeVersion)
    ensures OnActiveVersion(p, stored) <==>
              Parts(stored) != [] &&
              (p.activeVersion + ":" <= Parts(stored)[0] || (p.activeVersion == "v0" && ':' !in Parts(stored)[0]))
  {
    if Parts(stored) != [] {
      var first, v := Parts(stored)[0], p.activeVersion;
      if v + ":" <= first {
        assert first == v + ":" + first[|v| + 1..];
        IndexOfFirst(v, first[|v| + 1..]);
        assert first[..|v|] == v;
      }
      if SplitVersion(first).0 == v && ':' in first {
        assert first == v + ":" + first[|v| + 1..];
      }
    }
  }

  ghost function ActiveIds(p: DataProtection, stored: map<Id, Text>): set<Id> {
    set id | id in stored && OnActiveVersion(p, stored[id])
  }

  lemma Classified(p: DataProtection, stored: map<Id, Text>, current: set<Id>, behind: set<Id>)
    requires current !! behind && forall id :: id in stored <==> id in current || id in behind
    requires forall id | id in current :: OnActiveVersion(p, stored[id])
    requires forall id | id in behind :: !OnActiveVersion(p, stored[id])
    ensures current == ActiveIds(p, stored) && |stored| == |current| + |behind|
    ensures |behind| == 0 <==> forall id | id in stored :: OnActiveVersion(p, stored[id])
  {
    assert stored.Keys == current + behind;
    assert behind != {} ==> exists id :: id in behind && id in stored;
  }

  datatype Status = Status(total: nat, current: nat, outdated: nat)

  class ProtectedPath {
    var stored: map<Id, Text>

    // Reads every document first and writes all of them back afterwards.
    method SeedRotateProtectionKeys(c: Crypto, p: DataProtection, bits: Id -> nat)
      requires ConfigFor(p, p.activeVersion).Some?
      modifies this
      ensures stored == Rotated(c, p, bits, old(stored))
    {
      var documents: map<Id, Text> := map[];
      var unread := stored.Keys;
      while unread != {}
        invariant unread <= stored.Keys && documents.Keys == stored.Keys - unread
        invariant forall id | id in documents :: documents[id] == RotateOne(c, p, bits(id), stored[id])
        decreases unread
      {
        var id :| id in unread;
        documents := documents[id := RotateOne(c, p, bits(id), stored[id])];
        unread := unread - {id};
      }
      stored := documents;
    }

    // Throws, here None, exactly when some document holds an empty array: extractVersion reads the
    // first element of what it is given.
    method CheckProtectionRotationStatus(p: DataProtection) returns (r: Option<Status>)
      ensures r.None? <==> exists id | id in stored :: stored[id] == Many([])
      ensures r.Some? ==>
                && r.value.total == |stored| == r.value.current + r.value.outdated
                && r.value.current == |ActiveIds(p, stored)|
                && (r.value.outdated == 0 <==> forall id | id in stored :: OnActiveVersion(p, stored[id]))
    {
      hide OnActiveVersion, ActiveIds;
      var docs := stored;
      var total, currentCount, outdated: nat := 0, 0, 0;
      var unread := docs.Keys;
      ghost var current, behind: set<Id> := {}, {};
      while unread != {}
        invariant forall id :: id in docs <==> id in unread || id in current || id in behind
        invariant unread !! current && unread !! behind && current !! behind
        invariant forall id | id in current :: OnActiveVersion(p, docs[id])
        invariant forall id | id in behind :: !OnActiveVersion(p, docs[id])
        invariant forall id | id in current + behind :: docs[id] != Many([])
        invariant currentCount == |current| && outdated == |behind| && total == |current| + |behind|
        decreases unread
      {
        var id :| id in unread;
        if docs[id] == Many([]) {
          return None;
        }
        total, unread := total + 1, unread - {id};
        if OnActiveVersion(p, docs[id]) {
          currentCount, current := currentCount + 1, current + {id};
        } else {
          outdated, behind := outdated + 1, behind + {id};
        }
      }
      Classified(p, docs, current, behind);
      r := Some(Status(total, currentCount, outdated));
    }
  }

  // ----- what readers see -------------------------------------------------------------------

  ghost predicate Reversible(p: DataProtection) {
    && VersionTag(p.activeVersion)
    && ConfigFor(p, p.activeVersion).Some?
    && ConfigFor(p, p.activeVersion).value.strategy in {Mask, Encrypt}
  }

  ghost predicate Readable(c: Crypto, p: DataProtection, stored: Text) {
    && (stored.Many? ==> stored.texts != [])
    && Getter(c, p, stored).Revealed? && !StartsEmpty(Getter(c, p, stored).value)
  }

  ghost predicate ReadsAs(c: Crypto, p: DataProtection, stored: Text, value: Text) {
    Readable(c, p, stored) && Getter(c, p, stored) == Revealed(value)
  }

  // What is protected under the active version reads as it was.
  lemma Saved(c: Crypto, p: DataProtection, bits: nat, value: Text)
    requires Lawful(c) && Reversible(p) && !StartsEmpty(value)
    ensures Setter(c, p, bits, value).Success? && Setter(c, p, bits, value).value.Some?
    ensures var t := Setter(c, p, bits, value).value.value; ReadsAs(c, p, t, value) && OnActiveVersion(p, t)
  {
    RoundTrip(c, p, p, bits, value);
  }

  // A rotation that nobody interferes with changes no reading and leaves nothing on another version.
  lemma QuietRotation(c: Crypto, p: DataProtection, bits: Id -> nat, stored: map<Id, Text>)
    requires Lawful(c) && Reversible(p) && forall id | id in stored :: Readable(c, p, stored[id])
    ensures forall id | id in stored ::
              && Getter(c, p, Rotated(c, p, bits, stored)[id]) == Getter(c, p, stored[id])
              && OnActiveVersion(p, Rotated(c, p, bits, stored)[id])
  {
    hide Setter, Getter, Lawful, Reversible, StartsEmpty, OnActiveVersion;
    forall id | id in stored
      ensures Getter(c, p, Rotated(c, p, bits, stored)[id]) == Getter(c, p, stored[id])
      ensures OnActiveVersion(p, Rotated(c, p, bits, stored)[id])
    {
      Saved(c, p, bits(id), Getter(c, p, stored[id]).value);
    }
  }

  // ----- runs -------------------------------------------------------------------------------

  // A rotation reads documents and later writes each of them back, with saves, deletions, changes of
  // the active version and other rotations in between.
  datatype Step =
    | Save(id: Id, value: Text, bits: nat)
    | Remove(id: Id)
    | Activate(protection: DataProtection)
    | Read(worker: nat, id: Id)
    | Write(worker: nat, id: Id, bits: nat)

  // `held` is what rotations have read, revealed, and not yet written back.
  datatype State = State(protection: DataProtection, stored: map<Id, Text>, held: map<(nat, Id), Text>)

  // A new active version keeps the configuration of every version still stored.
  ghost predicate Keeps(now: DataProtection, next: DataProtection, stored: map<Id, Text>) {
    forall id | id in stored && (stored[id].Many? ==> stored[id].texts != []) ::
      ConfigFor(next, ExtractVersion(stored[id]).0) == ConfigFor(now, ExtractVersion(stored[id]).0)
  }

  ghost predicate Legal(s: State, step: Step) {
    match step
    case Save(_, value, _) => !StartsEmpty(value)
    case Remove(_) => true
    case Activate(p) => Reversible(p) && Keeps(s.protection, p, s.stored)
    case Read(worker, id) => id in s.stored && (worker, id) !in s.held
    case Write(worker, id, _) => (worker, id) in s.held
  }

  ghost function Stored(c: Crypto, s: State, id: Id, value: Text, bits: nat): map<Id, Text> {
    match Setter(c, s.protection, bits, value)
    case Success(Some(t)) => s.stored[id := t]
    case _ => s.stored
  }

  ghost function Do(c: Crypto, s: State, step: Step): State
    requires Legal(s, step)
  {
    match step
    case Save(id, value, bits) => s.(stored := Stored(c, s, id, value, bits))
    case Remove(id) => s.(stored := s.stored - {id})
    case Activate(p) => s.(protection := p)
    case Read(worker, id) =>
      (match Getter(c, s.protection, s.stored[id])
       case Revealed(value) => s.(held := s.held[(worker, id) := value])
       case _ => s)
    // An update, which does nothing for a document that is gone.
    case Write(worker, id, bits) =>
      s.(held := s.held - {(worker, id)},
         stored := if id in s.stored then Stored(c, s, id, s.held[(worker, id)], bits) else s.stored)
  }

  // Every save of the values considered, and every removal, can happen at any time.
  lemma CallersGoOn(c: Crypto, s: State, id: Id, value: Text, bits: nat)
    requires !StartsEmpty(value)
    ensures Legal(s, Save(id, value, bits)) && Legal(s, Remove(id)) && Do(c, s, Remove(id)) == s.(stored := s.stored - {id})
    ensures Lawful(c) && Reversible(s.protection) ==>
              Do(c, s, Save(id, value, bits)) == s.(stored := s.stored[id := Setter(c, s.protection, bits, value).value.value])
  {
    hide Setter, Reversible, Lawful;
    if Lawful(c) && Reversible(s.protection) {
      Saved(c, s.protection, bits, value);
    }
  }

  // A read and a write back of one value, with nothing in between, are what a rotation that runs alone
  // does to it.
  lemma AloneIsRotateOne(c: Crypto, s: State, worker: nat, id: Id, bits: nat)
    requires id in s.stored && (worker, id) !in s.held
    ensures Legal(s, Read(worker, id))
    ensures var t := Do(c, s, Read(worker, id));
            && (Legal(t, Write(worker, id, bits)) <==> Getter(c, s.protection, s.stored[id]).Revealed?)
            && (!Legal(t, Write(worker, id, bits)) ==> t == s && RotateOne(c, s.protection, bits, s.stored[id]) == s.stored[id])
            && (Legal(t, Write(worker, id, bits)) ==>
                 Do(c, t, Write(worker, id, bits)) == s.(stored := s.stored[id := RotateOne(c, s.protection, bits, s.stored[id])]))
  {
    hide Getter, Setter;
    var t := Do(c, s, Read(worker, id));
    if Legal(t, Write(worker, id, bits)) {
      assert t.held - {(worker, id)} == s.held;
      assert s.stored == s.stored[id := s.stored[id]];
    }
  }

  // The steps taken and the states they lead through, from an empty collection.
  datatype Run = Run(steps: seq<Step>, states: seq<State>)

  ghost predicate Leads(c: Crypto, run: Run, k: nat)
    requires k < |run.steps| && |run.states| == |run.steps| + 1
  {
    Legal(run.states[k], run.steps[k]) && run.states[k + 1] == Do(c, run.states[k], run.steps[k])
  }

  ghost predicate LegalRun(c: Crypto, run: Run) {
    && Lawful(c)
    && |run.states| == |run.steps| + 1
    && Reversible(run.states[0].protection) && run.states[0].stored == map[] && run.states[0].held == map[]
    && forall k {:trigger run.steps[k]} | 0 <= k < |run.steps| :: Leads(c, run, k)
  }

  lemma StepOf(c: Crypto, run: Run, k: nat)
    requires LegalRun(c, run) && k < |run.steps|
    ensures Lawful(c) && |run.states| == |run.steps| + 1
    ensures Legal(run.states[k], run.steps[k]) && run.states[k + 1] == Do(c, run.states[k], run.steps[k])
  {
    hide Legal, Do, Lawful;
    assert Leads(c, run, k) by { var step := run.steps[k]; }
  }

  // ----- everything can be read -------------------------------------------------------------

  ghost predicate Intact(c: Crypto, s: State) {
    && Reversible(s.protection)
    && (forall id | id in s.stored :: Readable(c, s.protection, s.stored[id]))
    && (forall h | h in s.held :: !StartsEmpty(s.held[h]))
  }

  lemma ActivateIntact(c: Crypto, s: State, p: DataProtection)
    requires Intact(c, s) && Reversible(p) && Keeps(s.protection, p, s.stored)
    ensures Intact(c, s.(protection := p))
    ensures forall id | id in s.stored :: Getter(c, p, s.stored[id]) == Getter(c, s.protection, s.stored[id])
  {
    hide Reversible, StartsEmpty;
    forall id | id in s.stored
      ensures Readable(c, p, s.stored[id]) && Getter(c, p, s.stored[id]) == Getter(c, s.protection, s.stored[id])
    {
      assert Readable(c, s.protection, s.stored[id]);
    }
  }

  lemma StoredIntact(c: Crypto, s: State, id: Id, value: Text, bits: nat)
    requires Lawful(c) && Intact(c, s) && !StartsEmpty(value)
    ensures var stored := Stored(c, s, id, value, bits);
            && stored.Keys == s.stored.Keys + {id} && stored == s.stored[id := stored[id]]
            && ReadsAs(c, s.protection, stored[id], value) && OnActiveVersion(s.protection, stored[id])
            && Intact(c, s.(stored := stored))
  {
    hide Setter, Getter, Lawful, Reversible, StartsEmpty, OnActiveVersion;
    Saved(c, s.protection, bits, value);
  }

  lemma StepIntact(c: Crypto, s: State, step: Step)
    requires Lawful(c) && Intact(c, s) && Legal(s, step)
    ensures Intact(c, Do(c, s, step))
  {
    hide Setter, Getter, Lawful, Reversible, StartsEmpty, Stored, Keeps;
    match step
    case Save(id, value, bits) => StoredIntact(c, s, id, value, bits);
    case Remove(_) =>
    case Activate(p) => ActivateIntact(c, s, p);
    case Read(_, id) => assert Readable(c, s.protection, s.stored[id]);
    case Write(worker, id, bits) => StoredIntact(c, s, id, s.held[(worker, id)], bits);
  }

  lemma {:induction false} AlwaysIntact(c: Crypto, run: Run, k: nat)
    requires LegalRun(c, run) && k <= |run.steps|
    ensures |run.states| == |run.steps| + 1 && Intact(c, run.states[k])
  {
    if k > 0 {
      hide LegalRun, Legal, Do, Intact;
      AlwaysIntact(c, run, k - 1);
      StepOf(c, run, k - 1);
      StepIntact(c, run.states[k - 1], run.steps[k - 1]);
    }
  }

  // ----- what was last saved ----------------------------------------------------------------

  predicate Changes(step: Step, id: Id) {
    (step.Save? || step.Remove?) && step.id == id
  }

  // What a caller last saved for a document and has not deleted since, read off the run alone.
  ghost function LastSaved(steps: seq<Step>, k: nat, id: Id): Option<Text>
    requires k <= |steps|
  {
    if k == 0 then None
    else if Changes(steps[k - 1], id) then if steps[k - 1].Save? then Some(steps[k - 1].value) else None
    else LastSaved(steps, k - 1, id)
  }

  // The document is there and reads as it was last saved.
  ghost predicate ReadsBack(c: Crypto, s: State, id: Id, saved: Option<Text>) {
    match saved
    case None => id !in s.stored
    case Some(value) => id in s.stored && ReadsAs(c, s.protection, s.stored[id], value)
  }

  ghost predicate AgreeAt(c: Crypto, run: Run, k: nat)
    requires k <= |run.steps| < |run.states|
  {
    forall id :: ReadsBack(c, run.states[k], id, LastSaved(run.steps, k, id))
  }

  ghost predicate AgreeUpTo(c: Crypto, run: Run, n: nat)
    requires n <= |run.steps| < |run.states|
  {
    forall k: nat | k <= n :: AgreeAt(c, run, k)
  }

  // A step, as one document sees it: a save or a deletion of it shows, a rotation that writes it back
  // shows what was read, anything else changes nothing.
  lemma StepSeen(c: Crypto, s: State, step: Step, id: Id, saved: Option<Text>)
    requires Lawful(c) && Intact(c, s) && Legal(s, step) && ReadsBack(c, s, id, saved)
    ensures var t := Do(c, s, step);
            match step
            case Save(other, value, _) => ReadsBack(c, t, id, if other == id then Some(value) else saved)
            case Remove(other) => ReadsBack(c, t, id, if other == id then None else saved)
            case Write(worker, other, _) =>
              ReadsBack(c, t, id, if other == id && saved.Some? then Some(s.held[(worker, id)]) else saved)
            case _ => ReadsBack(c, t, id, saved)
  {
    hide Setter, Getter, Lawful, Reversible, StartsEmpty, Stored, Keeps, Readable;
    match step
    case Save(other, value, bits) => StoredIntact(c, s, other, value, bits);
    case Remove(_) =>
    case Activate(p) => SameReading(c, s, p, id);
    case Read(_, _) =>
    case Write(worker, other, bits) => StoredIntact(c, s, other, s.held[(worker, other)], bits);
  }

  lemma SameReading(c: Crypto, s: State, p: DataProtection, id: Id)
    requires Intact(c, s) && Reversible(p) && Keeps(s.protection, p, s.stored)
    ensures id in s.stored ==> forall value :: ReadsAs(c, s.protection, s.stored[id], value) ==> ReadsAs(c, p, s.stored[id], value)
  {
    hide Reversible, StartsEmpty, Getter, Keeps;
    ActivateIntact(c, s, p);
  }

  lemma OneReading(c: Crypto, s: State, id: Id, saved: Option<Text>, other: Option<Text>)
    requires ReadsBack(c, s, id, saved) && ReadsBack(c, s, id, other)
    ensures saved == other
  {
    hide Readable, Getter;
  }

  // ----- a read and its write ---------------------------------------------------------------

  predicate Rotates(step: Step, worker: nat, id: Id) {
    (step.Read? || step.Write?) && step.worker == worker && step.id == id
  }

  // Step i is the read of what step k writes back.
  ghost predicate ItsRead(steps: seq<Step>, i: nat, k: nat) {
    && i < k < |steps| && steps[i].Read? && steps[k].Write?
    && Rotates(steps[k], steps[i].worker, steps[i].id)
    && forall m {:trigger steps[m]} | i < m < k :: !Rotates(steps[m], steps[i].worker, steps[i].id)
  }

  // What is held was read by the last step of that rotation on that document, and is what it then read as.
  lemma {:induction false} HeldSince(c: Crypto, run: Run, k: nat, worker: nat, id: Id) returns (i: nat)
    requires LegalRun(c, run) && k <= |run.steps| && (worker, id) in run.states[k].held
    ensures i < k && run.steps[i] == Read(worker, id)
    ensures forall m {:trigger run.steps[m]} | i < m < k :: !Rotates(run.steps[m], worker, id)
    ensures id in run.states[i].stored
    ensures Getter(c, run.states[i].protection, run.states[i].stored[id]) == Revealed(run.states[k].held[(worker, id)])
  {
    hide Lawful, Getter, Stored, Keeps;
    StepOf(c, run, k - 1);
    if run.steps[k - 1] == Read(worker, id) {
      i := k - 1;
      AlwaysIntact(c, run, i);
    } else {
      i := HeldSince(c, run, k - 1, worker, id);
    }
  }

  // The read of a write is the only one.
  lemma OneRead(steps: seq<Step>, i: nat, j: nat, k: nat)
    requires ItsRead(steps, i, k) && ItsRead(steps, j, k)
    ensures i == j
  {
    assert Rotates(steps[i], steps[i].worker, steps[i].id) && Rotates(steps[j], steps[j].worker, steps[j].id);
  }

  // Whether the write back is harmless, from what callers did to the document since the read: nothing,
  // or at last a deletion, or at last a save of the very text that was read.
  ghost predicate WriteFits(steps: seq<Step>, i: nat, k: nat)
    requires ItsRead(steps, i, k)
  {
    match LastChange(steps, i, k, steps[k].id)
    case None => true
    case Some(step) => step.Remove? || (step.Save? && Some(step.value) == LastSaved(steps, i, steps[k].id))
  }

  ghost function LastChange(steps: seq<Step>, i: nat, k: nat, id: Id): Option<Step>
    requires k <= |steps|
  {
    if k <= i + 1 then None
    else if Changes(steps[k - 1], id) then Some(steps[k - 1])
    else LastChange(steps, i, k - 1, id)
  }

  lemma {:induction false} SavedSince(steps: seq<Step>, i: nat, k: nat, id: Id)
    requires i < k <= |steps| && !Changes(steps[i], id)
    ensures LastSaved(steps, k, id) ==
            match LastChange(steps, i, k, id)
            case None => LastSaved(steps, i, id)
            case Some(step) => if step.Save? then Some(step.value) else None
    ensures match LastChange(steps, i, k, id) case None => true case Some(step) => Changes(step, id)
  {
    if i + 1 < k {
      SavedSince(steps, i, k - 1, id);
    }
  }

  // The write in step k, while all documents read as they were last saved.
  lemma {:induction false} WriteSeen(c: Crypto, run: Run, i: nat, k: nat)
    requires LegalRun(c, run) && ItsRead(run.steps, i, k) && AgreeUpTo(c, run, k)
    ensures ReadsBack(c, run.states[k + 1], run.steps[k].id, LastSaved(run.steps, k + 1, run.steps[k].id)) <==> WriteFits(run.steps, i, k)
  {
    hide LegalRun, ReadsBack, Legal, Do, Intact, LastSaved, LastChange;
    var id, worker := run.steps[k].id, run.steps[k].worker;
    StepOf(c, run, k);
    WriteNeedsRead(c, run, k);
    var j := HeldSince(c, run, k, worker, id);
    OneRead(run.steps, i, j, k);
    assert AgreeAt(c, run, i) && AgreeAt(c, run, k);
    WhatIsHeld(c, run.states[i], id, LastSaved(run.steps, i, id), run.states[k].held[(worker, id)]);
    AlwaysIntact(c, run, k);
    StepSeen(c, run.states[k], run.steps[k], id, LastSaved(run.steps, k, id));
    SavedSince(run.steps, i, k, id);
    NotAChange(run.steps, k, id);
    var shown := if LastSaved(run.steps, k, id).Some? then Some(run.states[k].held[(worker, id)]) else None;
    if ReadsBack(c, run.states[k + 1], id, LastSaved(run.steps, k, id)) {
      OneReading(c, run.states[k + 1], id, shown, LastSaved(run.steps, k, id));
    }
  }

  lemma WriteNeedsRead(c: Crypto, run: Run, k: nat)
    requires LegalRun(c, run) && k < |run.steps| && run.steps[k].Write?
    ensures |run.states| == |run.steps| + 1 && (run.steps[k].worker, run.steps[k].id) in run.states[k].held
  {
    hide LegalRun, Do;
    StepOf(c, run, k);
  }

  lemma WhatIsHeld(c: Crypto, s: State, id: Id, saved: Option<Text>, held: Text)
    requires ReadsBack(c, s, id, saved) && id in s.stored && Getter(c, s.protection, s.stored[id]) == Revealed(held)
    ensures saved == Some(held)
  {
    hide Getter;
  }

  lemma NotAChange(steps: seq<Step>, k: nat, id: Id)
    requires k < |steps| && !Changes(steps[k], id)
    ensures LastSaved(steps, k + 1, id) == LastSaved(steps, k, id)
  {
  }

  // Any other step, and any other document.
  lemma OtherSeen(c: Crypto, run: Run, k: nat, id: Id)
    requires LegalRun(c, run) && k < |run.steps| && AgreeUpTo(c, run, k)
    requires run.steps[k].Write? ==> run.steps[k].id != id
    ensures ReadsBack(c, run.states[k + 1], id, LastSaved(run.steps, k + 1, id))
  {
    hide LegalRun, ReadsBack, Legal, Do, Intact;
    StepOf(c, run, k);
    assert AgreeAt(c, run, k);
    AlwaysIntact(c, run, k);
    StepSeen(c, run.states[k], run.steps[k], id, LastSaved(run.steps, k, id));
  }

  lemma NothingSaved(c: Crypto, run: Run)
    requires LegalRun(c, run)
    ensures |run.states| == |run.steps| + 1 && AgreeUpTo(c, run, 0)
  {
  }

  ghost predicate WritesFit(steps: seq<Step>, n: nat) {
    forall i: nat, k: nat | ItsRead(steps, i, k) && k < n :: WriteFits(steps, i, k)
  }

  lemma OneMoreStep(c: Crypto, run: Run, n: nat)
    requires LegalRun(c, run) && n < |run.steps| < |run.states| && AgreeUpTo(c, run, n)
    ensures AgreeUpTo(c, run, n + 1) <==> forall i: nat | ItsRead(run.steps, i, n) :: WriteFits(run.steps, i, n)
  {
    hide LegalRun, ReadsBack, ItsRead, WriteFits, Rotates, LastSaved;
    var next := n + 1;
    assert AgreeUpTo(c, run, next) <==> AgreeAt(c, run, next);
    forall id | run.steps[n].Write? ==> run.steps[n].id != id
      ensures ReadsBack(c, run.states[next], id, LastSaved(run.steps, next, id))
    {
      OtherSeen(c, run, n, id);
    }
    if run.steps[n].Write? {
      var i := TheRead(c, run, n);
      WriteSeen(c, run, i, n);
      forall j: nat | ItsRead(run.steps, j, n) ensures j == i {
        OneRead(run.steps, i, j, n);
      }
    } else {
      NoRead(run.steps, n);
    }
  }

  lemma TheRead(c: Crypto, run: Run, k: nat) returns (i: nat)
    requires LegalRun(c, run) && k < |run.steps| && run.steps[k].Write?
    ensures ItsRead(run.steps, i, k)
  {
    hide LegalRun;
    WriteNeedsRead(c, run, k);
    i := HeldSince(c, run, k, run.steps[k].worker, run.steps[k].id);
  }

  lemma NoRead(steps: seq<Step>, k: nat)
    requires k < |steps| && !steps[k].Write?
    ensures forall i: nat :: !ItsRead(steps, i, k)
  {
  }

  // The main result: whatever is saved, deleted, activated and rotated meanwhile, every document always
  // reads as it was last saved if and only if no rotation writes back what a save has overtaken.
  lemma {:induction false} ReadsLastSavedIff(c: Crypto, run: Run, n: nat)
    requires LegalRun(c, run) && n <= |run.steps| < |run.states|
    ensures AgreeUpTo(c, run, n) <==> WritesFit(run.steps, n)
  {
    hide LegalRun, ItsRead, WriteFits, AgreeAt;
    if n == 0 {
      NothingSaved(c, run);
    } else {
      ReadsLastSavedIff(c, run, n - 1);
      if AgreeUpTo(c, run, n - 1) {
        OneMoreStep(c, run, n - 1);
      }
    }
  }

  // A save that falls between the read and the write is lost, under any lawful primitives.
  lemma OvertakenSaveIsLost(c: Crypto, p: DataProtection, first: Text, second: Text) returns (run: Run)
    requires Lawful(c) && Reversible(p) && !StartsEmpty(first) && !StartsEmpty(second)
    ensures LegalRun(c, run) && run.steps == [Save(0, first, 0), Read(0, 0), Save(0, second, 0), Write(0, 0, 0)]
    ensures ReadsBack(c, run.states[4], 0, Some(first)) && LastSaved(run.steps, 4, 0) == Some(second)
  {
    hide Setter, Getter, Lawful, Reversible, StartsEmpty, Stored, OnActiveVersion, Readable;
    var s0 := State(p, map[], map[]);
    StoredIntact(c, s0, 0, first, 0);
    var s1 := Do(c, s0, Save(0, first, 0));
    var s2 := Do(c, s1, Read(0, 0));
    assert s2.held == map[(0, 0) := first];
    StoredIntact(c, s2, 0, second, 0);
    var s3 := Do(c, s2, Save(0, second, 0));
    StoredIntact(c, s3, 0, first, 0);
    var s4 := Do(c, s3, Write(0, 0, 0));
    run := Run([Save(0, first, 0), Read(0, 0), Save(0, second, 0), Write(0, 0, 0)], [s0, s1, s2, s3, s4]);
    assert Leads(c, run, 0) && Leads(c, run, 1) && Leads(c, run, 2) && Leads(c, run, 3);
    assert Changes(run.steps[2], 0) && !Changes(run.steps[3], 0);
  }

  // ----- nothing left on another version ----------------------------------------------------

  predicate Protects(step: Step, id: Id) {
    (step.Save? || step.Write?) && step.id == id
  }

  ghost predicate Renewed(steps: seq<Step>, i: nat, k: nat, id: Id) {
    exists m {:trigger steps[m]} :: i <= m < k && m < |steps| && Protects(steps[m], id)
  }

  lemma ProtectedNow(c: Crypto, run: Run, k: nat, id: Id)
    requires LegalRun(c, run) && k < |run.steps| && Protects(run.steps[k], id) && id in run.states[k + 1].stored
    ensures OnActiveVersion(run.states[k + 1].protection, run.states[k + 1].stored[id])
  {
    hide LegalRun, Reversible, Readable, Keeps, Lawful, Setter, Getter, Stored, OnActiveVersion, StartsEmpty;
    StepOf(c, run, k);
    AlwaysIntact(c, run, k);
    var s := run.states[k];
    match run.steps[k]
    case Save(_, value, bits) => StoredIntact(c, s, id, value, bits);
    case Write(worker, _, bits) => StoredIntact(c, s, id, s.held[(worker, id)], bits);
    case _ =>
  }

  lemma Untouched(c: Crypto, run: Run, k: nat, id: Id)
    requires LegalRun(c, run) && k < |run.steps| && !Protects(run.steps[k], id) && id in run.states[k + 1].stored
    ensures id in run.states[k].stored && run.states[k + 1].stored[id] == run.states[k].stored[id]
  {
    hide LegalRun, Intact, Lawful, Getter, Setter;
    StepOf(c, run, k);
  }

  lemma SameProtection(c: Crypto, run: Run, k: nat)
    requires LegalRun(c, run) && k < |run.steps| && !run.steps[k].Activate?
    ensures run.states[k + 1].protection == run.states[k].protection
  {
    hide LegalRun, Lawful, Getter, Setter;
    StepOf(c, run, k);
  }

  lemma LegalLengths(c: Crypto, run: Run)
    requires LegalRun(c, run)
    ensures |run.states| == |run.steps| + 1
  {
  }

  // While the active version stays, a value is on it exactly when it was saved or written back since,
  // or was on it before.
  lemma {:induction false} OnActiveIff(c: Crypto, run: Run, i: nat, k: nat, id: Id)
    requires LegalRun(c, run) && i <= k <= |run.steps|
    requires forall m {:trigger run.steps[m]} | i <= m < k :: !run.steps[m].Activate?
    requires id in run.states[k].stored
    ensures |run.states| == |run.steps| + 1
    ensures var s, t := run.states[i], run.states[k];
            OnActiveVersion(t.protection, t.stored[id]) <==>
              Renewed(run.steps, i, k, id) || (id in s.stored && OnActiveVersion(s.protection, s.stored[id]))
    decreases k
  {
    hide LegalRun, OnActiveVersion;
    LegalLengths(c, run);
    if i < k {
      var last := run.steps[k - 1];
      if Protects(last, id) {
        ProtectedNow(c, run, k - 1, id);
      } else {
        Untouched(c, run, k - 1, id);
        SameProtection(c, run, k - 1);
        OnActiveIff(c, run, i, k - 1, id);
      }
    }
  }
}
