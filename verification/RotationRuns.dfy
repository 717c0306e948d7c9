// Key rotation while the application keeps writing: any number of rotations at once, each taking the
// steps of a turn one at a time, between puts and deletes of the application.

module RotationRuns {
  import opened Prelude
  import opened StorageCrypto
  import opened ObjectStorageModel
  import opened RotationCore

  type Worker = nat

  // A turn in progress: the key, the metadata read first, what `get` returned once it has, and whether
  // the re-check has passed.
  datatype Session = Session(key: Key, before: Metadata, found: Option<Found>, checked: bool)

  // The application may still write under another version, or unencrypted.
  datatype Step =
    | AppPut(key: Key, plaintext: Bytes, contentType: string, settings: Option<Settings>, random: nat)
    | AppDelete(key: Key)
    | ReadMetadata(worker: Worker, key: Key)
    | ReadBody(worker: Worker)
    | Recheck(worker: Worker)
    | WriteBack(worker: Worker, random: nat)
    | GiveUp(worker: Worker)

  datatype State = State(objects: Objects, sessions: map<Worker, Session>)

  predicate Rotation(step: Step) {
    !step.AppPut? && !step.AppDelete?
  }

  function Writer(c: Config, settings: Option<Settings>): Config {
    c.(encrypt := settings)
  }

  // Every writer uses the connector's mode and a version whose reading key is set.
  ghost predicate WriterFits(c: Config, settings: Option<Settings>) {
    && c.encrypt.Some?
    && (settings.Some? ==> settings.value.mode == c.encrypt.value.mode && Readable(c.env, settings.value.mode, ActiveVersion(settings.value)))
  }

  ghost predicate Legal(c: Config, s: State, step: Step)
    requires c.encrypt.Some?
  {
    match step
    case AppPut(_, plaintext, contentType, settings, random) =>
      WriterFits(c, settings) && Written(Writer(c, settings), plaintext, contentType, random).Success?
    case AppDelete(_) => true
    case ReadMetadata(worker, key) =>
      worker !in s.sessions && key in s.objects && s.objects[key].version != Some(ActiveVersion(c.encrypt.value))
    case ReadBody(worker) =>
      && worker in s.sessions && s.sessions[worker].found.None?
      && s.sessions[worker].key in s.objects && Reading(c, s.objects[s.sessions[worker].key]).Success?
    case Recheck(worker) =>
      worker in s.sessions && s.sessions[worker].found.Some? && !s.sessions[worker].checked && Current(s.objects, s.sessions[worker])
    case WriteBack(worker, _) => worker in s.sessions && s.sessions[worker].found.Some? && s.sessions[worker].checked
    case GiveUp(worker) => worker in s.sessions
  }

  // What the re-check asks: a turn that does not pass gives up.
  predicate Current(objects: Objects, session: Session) {
    session.key in objects && MetadataOf(objects[session.key]).checksum == session.before.checksum
  }

  // What the put makes of the bucket.
  function WriteBackIn(c: Config, objects: Objects, session: Session, random: nat): Objects
    requires session.found.Some?
  {
    match Written(c, session.found.value.bytes, session.found.value.contentType, random)
    case Success(o) => objects[session.key := o]
    case Failure(_) => objects
  }

  ghost function Do(c: Config, s: State, step: Step): State
    requires c.encrypt.Some? && Legal(c, s, step)
  {
    match step
    case AppPut(key, plaintext, contentType, settings, random) =>
      s.(objects := s.objects[key := Written(Writer(c, settings), plaintext, contentType, random).value])
    case AppDelete(key) => s.(objects := s.objects - {key})
    case ReadMetadata(worker, key) =>
      s.(sessions := s.sessions[worker := Session(key, MetadataOf(s.objects[key]), None, false)])
    case ReadBody(worker) =>
      var session := s.sessions[worker];
      s.(sessions := s.sessions[worker := session.(found := Some(Reading(c, s.objects[session.key]).value))])
    case Recheck(worker) => s.(sessions := s.sessions[worker := s.sessions[worker].(checked := true)])
    case WriteBack(worker, random) =>
      State(WriteBackIn(c, s.objects, s.sessions[worker], random), s.sessions - {worker})
    case GiveUp(worker) => s.(sessions := s.sessions - {worker})
  }

  // What callers do is never held up, and a turn can be given up at any time.
  lemma CallersGoOn(c: Config, s: State, key: Key, plaintext: Bytes, contentType: string, settings: Option<Settings>, random: nat)
    requires c.encrypt.Some? && WriterFits(c, settings)
    ensures Legal(c, s, AppDelete(key)) && Do(c, s, AppDelete(key)) == s.(objects := s.objects - {key})
    ensures var written := Written(Writer(c, settings), plaintext, contentType, random);
            var put := AppPut(key, plaintext, contentType, settings, random);
            written.Success? ==> Legal(c, s, put) && Do(c, s, put) == s.(objects := s.objects[key := written.value])
    ensures forall worker | worker in s.sessions ::
              Legal(c, s, GiveUp(worker)) && Do(c, s, GiveUp(worker)) == s.(sessions := s.sessions - {worker})
  {
  }

  // The four steps of a turn, taken with nothing in between, are a turn of a rotation that runs alone.
  lemma AloneIsTurn(c: Config, s: State, worker: Worker, key: Key, random: nat)
    requires c.encrypt.Some? && worker !in s.sessions && key in s.objects
    ensures var turn := Turn(c, ActiveVersion(c.encrypt.value), s.objects[key], false, random);
            && (Legal(c, s, ReadMetadata(worker, key)) <==> turn != Skipped)
            && (turn != Skipped ==>
                 var t := Do(c, s, ReadMetadata(worker, key));
                 && Legal(c, t, GiveUp(worker)) && Do(c, t, GiveUp(worker)) == s
                 && (!Legal(c, t, ReadBody(worker)) ==> turn.Failed?)
                 && (Legal(c, t, ReadBody(worker)) ==>
                      var u := Do(c, t, ReadBody(worker));
                      && Legal(c, u, Recheck(worker)) && Legal(c, Do(c, u, Recheck(worker)), WriteBack(worker, random))
                      && Do(c, Do(c, u, Recheck(worker)), WriteBack(worker, random)) ==
                           s.(objects := if turn.Migrated? then s.objects[key := turn.after] else s.objects)))
  {
    hide Reading, Written;
    if Legal(c, s, ReadMetadata(worker, key)) {
      var t := Do(c, s, ReadMetadata(worker, key));
      assert t.sessions - {worker} == s.sessions;
      if Legal(c, t, ReadBody(worker)) {
        var u := Do(c, Do(c, t, ReadBody(worker)), Recheck(worker));
        assert u.sessions - {worker} == s.sessions;
      }
    }
  }

  // ----- what readers see -------------------------------------------------------------------

  // All that `get` returns: the bytes, the content type and the checksum.
  type View = map<Key, Found>

  // Readable, with the checksum of its content on record.
  predicate Whole(c: Config, o: Stored) {
    Plaintext(c, o).Success? && o.checksum == Some(c.prims.checksum(Plaintext(c, o).value))
  }

  ghost predicate AllWhole(c: Config, objects: Objects) {
    forall k | k in objects :: Whole(c, objects[k])
  }

  function ViewOf(c: Config, objects: Objects): View {
    map k | k in objects && Reading(c, objects[k]).Success? :: Reading(c, objects[k]).value
  }

  // What a reader gets of a content that was put.
  function Shown(c: Config, bytes: Bytes, contentType: string): Found {
    Found(bytes, contentType, c.prims.checksum(bytes))
  }

  // What the application alone makes of the view.
  function AppDo(c: Config, view: View, step: Step): View {
    match step
    case AppPut(key, plaintext, contentType, _, _) => view[key := Shown(c, plaintext, contentType)]
    case AppDelete(key) => view - {key}
    case _ => view
  }

  lemma PutIsWhole(c: Config, plaintext: Bytes, contentType: string, settings: Option<Settings>, random: nat)
    requires LawfulConfig(c) && WriterFits(c, settings) && Written(Writer(c, settings), plaintext, contentType, random).Success?
    ensures var o := Written(Writer(c, settings), plaintext, contentType, random).value;
            Whole(c, o) && Reading(c, o) == Success(Shown(c, plaintext, contentType))
  {
    if settings.Some? {
      DecryptUndoesEncrypt(c.prims, c.env, settings.value, c.encrypt.value, random, plaintext);
    }
  }

  // A whole object shows the checksum on record, which is that of its bytes.
  lemma WholeShows(c: Config, o: Stored)
    requires Whole(c, o)
    ensures Reading(c, o).Success? && MetadataOf(o).checksum == c.prims.checksum(Reading(c, o).value.bytes)
    ensures var f := Reading(c, o).value; f == Shown(c, f.bytes, f.contentType)
  {
  }

  lemma ViewUpdated(c: Config, objects: Objects, key: Key, o: Stored)
    requires AllWhole(c, objects) && Whole(c, o)
    ensures AllWhole(c, objects[key := o]) && Reading(c, o).Success?
    ensures ViewOf(c, objects[key := o]) == ViewOf(c, objects)[key := Reading(c, o).value]
  {
  }

  lemma ViewRemoved(c: Config, objects: Objects, key: Key)
    requires AllWhole(c, objects)
    ensures AllWhole(c, objects - {key}) && ViewOf(c, objects - {key}) == ViewOf(c, objects) - {key}
  {
  }

  lemma ViewHolds(c: Config, objects: Objects, key: Key)
    requires AllWhole(c, objects)
    ensures key in ViewOf(c, objects) <==> key in objects
    ensures key in objects ==>
              var f := ViewOf(c, objects)[key];
              && Whole(c, objects[key]) && Reading(c, objects[key]) == Success(f)
              && f == Shown(c, f.bytes, f.contentType) && MetadataOf(objects[key]).checksum == f.checksum
  {
    if key in objects {
      WholeShows(c, objects[key]);
    }
  }

  lemma ActiveFits(c: Config)
    requires c.encrypt.Some? && ReadsItself(c)
    ensures WriterFits(c, c.encrypt) && Writer(c, c.encrypt) == c
  {
  }

  // The put against what readers see: it cannot encrypt, or writes what is there.
  ghost predicate WriteFits(c: Config, view: View, session: Session)
    requires session.found.Some?
  {
    || !WriteKeySet(c)
    || (session.key in view && view[session.key] == Shown(c, session.found.value.bytes, session.found.value.contentType))
  }

  // The one write of a rotation leaves all that readers get as it is exactly when it cannot encrypt, or
  // writes the bytes and the content type that are there.
  lemma PutInvisibleIff(c: Config, objects: Objects, session: Session, random: nat)
    requires LawfulConfig(c) && ReadsItself(c) && c.encrypt.Some? && AllWhole(c, objects) && session.found.Some?
    ensures AllWhole(c, WriteBackIn(c, objects, session, random))
    ensures ViewOf(c, WriteBackIn(c, objects, session, random)) == ViewOf(c, objects) <==> WriteFits(c, ViewOf(c, objects), session)
  {
    hide AllWhole, ViewOf, Whole, Reading, LawfulConfig, ReadsItself, WriterFits, Shown;
    var f := session.found.value;
    var written := Written(c, f.bytes, f.contentType, random);
    assert written.Success? <==> WriteKeySet(c);
    if written.Success? {
      ActiveFits(c);
      PutIsWhole(c, f.bytes, f.contentType, c.encrypt, random);
      ViewUpdated(c, objects, session.key, written.value);
      SameEntryIff(ViewOf(c, objects), session.key, Shown(c, f.bytes, f.contentType));
    }
  }

  lemma SameEntryIff(view: View, key: Key, f: Found)
    ensures view[key := f] == view <==> key in view && view[key] == f
  {
    assert view[key := f][key] == f;
  }

  // ----- runs -------------------------------------------------------------------------------

  datatype Run = Run(steps: seq<Step>, states: seq<State>)

  ghost predicate Leads(c: Config, run: Run, k: nat)
    requires k < |run.steps| && |run.states| == |run.steps| + 1 && c.encrypt.Some?
  {
    Legal(c, run.states[k], run.steps[k]) && run.states[k + 1] == Do(c, run.states[k], run.steps[k])
  }

  // A run starts from any bucket of whole objects, with no turn in progress.
  ghost predicate LegalRun(c: Config, run: Run) {
    && c.encrypt.Some? && LawfulConfig(c) && ReadsItself(c)
    && |run.states| == |run.steps| + 1
    && AllWhole(c, run.states[0].objects) && run.states[0].sessions == map[]
    && forall k {:trigger run.steps[k]} | 0 <= k < |run.steps| :: Leads(c, run, k)
  }

  lemma StepKeepsWhole(c: Config, s: State, step: Step)
    requires c.encrypt.Some? && LawfulConfig(c) && ReadsItself(c) && AllWhole(c, s.objects) && Legal(c, s, step)
    ensures AllWhole(c, Do(c, s, step).objects)
    ensures !step.WriteBack? ==> ViewOf(c, Do(c, s, step).objects) == AppDo(c, ViewOf(c, s.objects), step)
  {
    hide AllWhole, ViewOf, Whole, LawfulConfig, ReadsItself, WriterFits, Written, Reading, WriteBackIn;
    match step
    case AppPut(key, plaintext, contentType, settings, random) =>
      PutIsWhole(c, plaintext, contentType, settings, random);
      ViewUpdated(c, s.objects, key, Written(Writer(c, settings), plaintext, contentType, random).value);
    case AppDelete(key) =>
      ViewRemoved(c, s.objects, key);
    case WriteBack(worker, random) =>
      PutInvisibleIff(c, s.objects, s.sessions[worker], random);
    case _ =>
  }

  lemma {:induction false} AlwaysWhole(c: Config, run: Run, k: nat)
    requires LegalRun(c, run) && k <= |run.steps|
    ensures AllWhole(c, run.states[k].objects)
  {
    if k > 0 {
      AlwaysWhole(c, run, k - 1);
      assert Leads(c, run, k - 1) by { assert run.steps[k - 1] == run.steps[k - 1]; }
      hide AllWhole, Legal, Do, LawfulConfig, ReadsItself;
      StepKeepsWhole(c, run.states[k - 1], run.steps[k - 1]);
    }
  }

  // Where a turn has its data from: the metadata was that of the key in state m, the content in state
  // r, the re-check passed in state q, one not before the other.
  ghost predicate From(c: Config, run: Run, session: Session, m: nat, r: nat, q: nat)
    requires m < |run.states| && r < |run.states| && q < |run.states|
  {
    && session.key in run.states[m].objects && MetadataOf(run.states[m].objects[session.key]) == session.before
    && (session.found.Some? ==>
          m <= r && session.key in run.states[r].objects && Reading(c, run.states[r].objects[session.key]) == Success(session.found.value))
    && (session.checked ==> session.found.Some? && r <= q && Current(run.states[q].objects, session))
  }

  ghost predicate Acts(step: Step, worker: Worker) {
    Rotation(step) && step.worker == worker
  }

  // The last step of a turn that has passed its re-check is the re-check.
  ghost predicate CheckedSince(run: Run, session: Session, worker: Worker, q: nat, k: nat)
    requires k <= |run.steps|
  {
    session.checked ==> q < k && run.steps[q] == Recheck(worker) && forall m {:trigger run.steps[m]} | q < m < k :: !Acts(run.steps[m], worker)
  }

  lemma {:induction false} Provenance(c: Config, run: Run, k: nat, worker: Worker) returns (m: nat, r: nat, q: nat)
    requires LegalRun(c, run) && k <= |run.steps| && worker in run.states[k].sessions
    ensures m < k && r < k && q < k && From(c, run, run.states[k].sessions[worker], m, r, q)
    ensures CheckedSince(run, run.states[k].sessions[worker], worker, q, k)
  {
    hide AllWhole, LawfulConfig, ReadsItself, Reading, Written, WriterFits, WriteBackIn;
    var s, step := run.states[k - 1], run.steps[k - 1];
    assert Leads(c, run, k - 1);
    if step.ReadMetadata? && step.worker == worker {
      m, r, q := k - 1, k - 1, k - 1;
    } else {
      m, r, q := Provenance(c, run, k - 1, worker);
      if step.ReadBody? && step.worker == worker {
        r := k - 1;
      } else if step.Recheck? && step.worker == worker {
        q := k - 1;
      }
    }
  }

  // ----- what the application makes of the view ---------------------------------------------

  // What the application has made of the initial view in its first k steps, rotations aside.
  ghost function AppView(c: Config, run: Run, k: nat): View
    requires k <= |run.steps| && run.states != []
  {
    if k == 0 then ViewOf(c, run.states[0].objects) else AppDo(c, AppView(c, run, k - 1), run.steps[k - 1])
  }

  // Up to state n readers see what the application has written, as if no rotation were running.
  ghost predicate AgreeUpTo(c: Config, run: Run, n: nat)
    requires n <= |run.steps| < |run.states|
  {
    forall k: nat | k <= n :: ViewOf(c, run.states[k].objects) == AppView(c, run, k)
  }

  // A write of a rotation that would show, seen from what the application has written.
  ghost predicate StepFits(c: Config, run: Run, k: nat)
    requires k < |run.steps| < |run.states|
  {
    run.steps[k].WriteBack? && run.steps[k].worker in run.states[k].sessions &&
    run.states[k].sessions[run.steps[k].worker].found.Some? ==>
      WriteFits(c, AppView(c, run, k), run.states[k].sessions[run.steps[k].worker])
  }

  lemma LegalIsLawful(c: Config, run: Run)
    requires LegalRun(c, run)
    ensures LawfulConfig(c) && ReadsItself(c) && c.encrypt.Some? && |run.states| == |run.steps| + 1
  {
  }

  // One step, while readers see what the application has written.
  lemma NextView(c: Config, run: Run, k: nat)
    requires LegalRun(c, run) && k < |run.steps| && ViewOf(c, run.states[k].objects) == AppView(c, run, k)
    ensures ViewOf(c, run.states[k + 1].objects) == AppView(c, run, k + 1) <==> StepFits(c, run, k)
  {
    hide AllWhole, ViewOf, LawfulConfig, ReadsItself, Reading, Written, WriterFits, WriteBackIn, WriteFits;
    var s, step := run.states[k], run.steps[k];
    AlwaysWhole(c, run, k);
    assert Leads(c, run, k);
    if step.WriteBack? {
      PutInvisibleIff(c, s.objects, s.sessions[step.worker], step.random);
    } else {
      StepKeepsWhole(c, s, step);
    }
  }

  // ----- a put and what was written since its content was read -------------------------------

  predicate AppWrites(step: Step, key: Key) {
    (step.AppPut? || step.AppDelete?) && step.key == key
  }

  // The application's last write of a key in the steps from r up to k.
  function LastAppWrite(steps: seq<Step>, r: nat, k: nat, key: Key): Option<Step>
    requires k <= |steps|
  {
    if k <= r then None
    else if AppWrites(steps[k - 1], key) then Some(steps[k - 1])
    else LastAppWrite(steps, r, k - 1, key)
  }

  // The rotation does nothing in that turn but the re-check.
  ghost predicate OnlyRechecks(steps: seq<Step>, r: nat, k: nat, worker: Worker) {
    k <= |steps| && forall m {:trigger steps[m]} | r < m < k :: Acts(steps[m], worker) ==> steps[m].Recheck?
  }

  // Step r is the read of what step k puts.
  ghost predicate ItsBody(run: Run, r: nat, k: nat) {
    && r < k < |run.steps| < |run.states| && run.steps[k].WriteBack? && run.steps[r] == ReadBody(run.steps[k].worker)
    && run.steps[k].worker in run.states[r].sessions && OnlyRechecks(run.steps, r, k, run.steps[k].worker)
  }

  // Since the content was read the application has not written the key, or has at last put the very
  // bytes and content type that it held then; or there is no key to encrypt with.
  ghost predicate HistoryFits(c: Config, run: Run, r: nat, k: nat)
    requires ItsBody(run, r, k)
  {
    var key := run.states[r].sessions[run.steps[k].worker].key;
    || !WriteKeySet(c)
    || match LastAppWrite(run.steps, r, k, key)
       case None => true
       case Some(step) =>
         step.AppPut? && key in AppView(c, run, r) && AppView(c, run, r)[key] == Shown(c, step.plaintext, step.contentType)
  }

  lemma {:induction false} ViewSince(c: Config, run: Run, r: nat, k: nat, key: Key)
    requires run.states != [] && r <= k <= |run.steps|
    ensures match LastAppWrite(run.steps, r, k, key)
            case None =>
              && (key in AppView(c, run, k) <==> key in AppView(c, run, r))
              && (key in AppView(c, run, r) ==> AppView(c, run, k)[key] == AppView(c, run, r)[key])
            case Some(AppPut(_, plaintext, contentType, _, _)) =>
              key in AppView(c, run, k) && AppView(c, run, k)[key] == Shown(c, plaintext, contentType)
            case Some(_) => key !in AppView(c, run, k)
    decreases k
  {
    if r < k {
      hide Shown, ViewOf;
      ViewSince(c, run, r, k - 1, key);
      var step := run.steps[k - 1];
    }
  }

  // What a turn holds was read by its last read, and is what the key then held.
  ghost predicate ReadIn(c: Config, run: Run, session: Session, worker: Worker, r: nat, k: nat) {
    && r < k <= |run.steps| < |run.states| && run.steps[r] == ReadBody(worker) && OnlyRechecks(run.steps, r, k, worker)
    && worker in run.states[r].sessions && run.states[r].sessions[worker].key == session.key
    && session.found.Some? && session.key in run.states[r].objects
    && Reading(c, run.states[r].objects[session.key]) == Success(session.found.value)
  }

  lemma {:induction false} ReadBefore(c: Config, run: Run, k: nat, worker: Worker) returns (r: nat)
    requires LegalRun(c, run) && k <= |run.steps|
    requires worker in run.states[k].sessions && run.states[k].sessions[worker].found.Some?
    ensures ReadIn(c, run, run.states[k].sessions[worker], worker, r, k)
  {
    hide AllWhole, LawfulConfig, ReadsItself, Reading, Written, WriterFits, WriteBackIn;
    var step := run.steps[k - 1];
    assert Leads(c, run, k - 1);
    if step.ReadBody? && step.worker == worker {
      r := k - 1;
    } else {
      r := ReadBefore(c, run, k - 1, worker);
    }
  }

  lemma OneBody(run: Run, r: nat, s: nat, k: nat)
    requires ItsBody(run, r, k) && ItsBody(run, s, k)
    ensures r == s
  {
    assert Acts(run.steps[r], run.steps[k].worker) && Acts(run.steps[s], run.steps[k].worker);
  }

  lemma TurnAt(c: Config, run: Run, k: nat)
    requires LegalRun(c, run) && k < |run.steps| && run.steps[k].WriteBack?
    ensures |run.states| == |run.steps| + 1 && run.steps[k].worker in run.states[k].sessions
    ensures var session := run.states[k].sessions[run.steps[k].worker]; session.checked && session.found.Some?
  {
    hide AllWhole, LawfulConfig, ReadsItself, Do;
    assert Leads(c, run, k);
  }

  lemma TheBody(c: Config, run: Run, k: nat) returns (r: nat)
    requires LegalRun(c, run) && k < |run.steps| && run.steps[k].WriteBack?
    ensures ItsBody(run, r, k)
  {
    hide LegalRun, Reading;
    TurnAt(c, run, k);
    r := ReadBefore(c, run, k, run.steps[k].worker);
  }

  // What is there when the put comes is what the put brings, exactly when the history fits.
  lemma StepFitsIff(c: Config, run: Run, r: nat, k: nat)
    requires LegalRun(c, run) && ItsBody(run, r, k) && AgreeUpTo(c, run, k)
    ensures StepFits(c, run, k) <==> HistoryFits(c, run, r, k)
  {
    var worker := run.steps[k].worker;
    TurnAt(c, run, k);
    var s := ReadBefore(c, run, k, worker);
    OneBody(run, r, s, k);
    var session := run.states[k].sessions[worker];
    AlwaysWhole(c, run, r);
    hide LegalRun, AppView, ViewOf, Reading, Shown, AllWhole, LastAppWrite, OnlyRechecks;
    ViewHolds(c, run.states[r].objects, session.key);
    assert ViewOf(c, run.states[r].objects) == AppView(c, run, r);
    ViewSince(c, run, r, k, session.key);
  }

  // While readers see what the application has written: a put of a rotation changes nothing for them if
  // and only if the history of its key fits.
  lemma WriteInvisibleIff(c: Config, run: Run, r: nat, k: nat)
    requires LegalRun(c, run) && ItsBody(run, r, k) && AgreeUpTo(c, run, k)
    ensures ViewOf(c, run.states[k + 1].objects) == ViewOf(c, run.states[k].objects) <==> HistoryFits(c, run, r, k)
  {
    hide LegalRun, ViewOf, HistoryFits, StepFits, OnlyRechecks;
    LegalIsLawful(c, run);
    assert ViewOf(c, run.states[k].objects) == AppView(c, run, k);
    NextView(c, run, k);
    StepFitsIff(c, run, r, k);
  }

  ghost predicate HistoriesFit(c: Config, run: Run, n: nat) {
    forall r: nat, k: nat | ItsBody(run, r, k) && k < n :: HistoryFits(c, run, r, k)
  }

  lemma OneMoreFits(c: Config, run: Run, k: nat)
    requires LegalRun(c, run) && k < |run.steps| < |run.states| && AgreeUpTo(c, run, k)
    ensures StepFits(c, run, k) <==> forall r: nat | ItsBody(run, r, k) :: HistoryFits(c, run, r, k)
  {
    if run.steps[k].WriteBack? {
      hide LegalRun, StepFits, HistoryFits, AgreeUpTo, ItsBody;
      var r := TheBody(c, run, k);
      StepFitsIff(c, run, r, k);
      forall s: nat | ItsBody(run, s, k) ensures s == r {
        OneBody(run, r, s, k);
      }
    }
  }

  // The main result: readers always see exactly what the application has written if and only if, for
  // every put of a rotation that can encrypt, the application's last write of that key since its content
  // was read is absent or puts the very bytes and content type that were read.
  lemma {:induction false} LosesNothingIff(c: Config, run: Run, n: nat)
    requires LegalRun(c, run) && n <= |run.steps| < |run.states|
    ensures AgreeUpTo(c, run, n) <==> HistoriesFit(c, run, n)
  {
    hide LegalRun, ViewOf, AppDo, StepFits, HistoryFits, ItsBody;
    if n > 0 {
      LosesNothingIff(c, run, n - 1);
      if AgreeUpTo(c, run, n - 1) {
        assert ViewOf(c, run.states[n - 1].objects) == AppView(c, run, n - 1);
        NextView(c, run, n - 1);
        OneMoreFits(c, run, n - 1);
      }
    } else {
      LegalIsLawful(c, run);
      NothingYet(c, run);
    }
  }

  // ----- no content comes back --------------------------------------------------------------

  ghost predicate SameBytes(c: Config, run: Run, i: nat, k: nat, key: Key)
    requires i <= |run.steps| && k <= |run.steps| && run.states != []
  {
    && key in AppView(c, run, i) && key in AppView(c, run, k)
    && AppView(c, run, i)[key].bytes == AppView(c, run, k)[key].bytes
  }

  ghost predicate SameObject(c: Config, run: Run, j: nat, k: nat, key: Key)
    requires j <= |run.steps| && k <= |run.steps| && run.states != []
  {
    key in AppView(c, run, j) && key in AppView(c, run, k) && AppView(c, run, j)[key] == AppView(c, run, k)[key]
  }

  // Of the application's writes alone: bytes that a key keeps or regains it has had all along, and with
  // one content type.
  ghost predicate NoReturn(c: Config, run: Run)
    requires run.states != []
  {
    forall key, i: nat, j: nat, k: nat | i <= j <= k <= |run.steps| && SameBytes(c, run, i, k, key) ::
      SameObject(c, run, j, k, key)
  }

  // Step q is the re-check of the put in step k.
  ghost predicate ItsRecheck(run: Run, q: nat, k: nat) {
    && q < k < |run.steps| && run.steps[k].WriteBack? && run.steps[q] == Recheck(run.steps[k].worker)
    && forall m {:trigger run.steps[m]} | q < m < k :: !Acts(run.steps[m], run.steps[k].worker)
  }

  // The application never writes a key between the re-check and the put of a turn on it.
  ghost predicate NoneInWindow(run: Run)
    requires |run.states| == |run.steps| + 1
  {
    forall q: nat, k: nat | ItsRecheck(run, q, k) && run.steps[k].worker in run.states[k].sessions ::
      Unwritten(run, q, k, run.states[k].sessions[run.steps[k].worker].key)
  }

  ghost predicate Unwritten(run: Run, q: nat, k: nat, key: Key) {
    k <= |run.steps| && forall m {:trigger run.steps[m]} | q <= m < k :: !AppWrites(run.steps[m], key)
  }

  lemma {:induction false} UnwrittenView(c: Config, run: Run, q: nat, k: nat, key: Key)
    requires run.states != [] && q <= k && Unwritten(run, q, k, key)
    ensures key in AppView(c, run, q) <==> key in AppView(c, run, k)
    ensures key in AppView(c, run, q) ==> AppView(c, run, q)[key] == AppView(c, run, k)[key]
    decreases k
  {
    if q < k {
      UnwrittenView(c, run, q, k - 1, key);
      var step := run.steps[k - 1];
      hide ViewOf, Shown;
    }
  }

  // Then what a turn writes back is what is there.
  lemma WritesWhatIsThere(c: Config, run: Run, k: nat)
    requires |run.states| == |run.steps| + 1 && LegalRun(c, run) && NoReturn(c, run) && NoneInWindow(run) && k < |run.steps| && AgreeUpTo(c, run, k)
    ensures StepFits(c, run, k)
  {
    if run.steps[k].WriteBack? {
      hide LegalRun, AppView, NoReturn, AllWhole, ViewOf, From, Unwritten, Shown;
      var worker := run.steps[k].worker;
      TurnAt(c, run, k);
      var session := run.states[k].sessions[worker];
      var m, r, q := Provenance(c, run, k, worker);
      assert ItsRecheck(run, q, k);
      UnwrittenView(c, run, q, k, session.key);
      SameWhenChecked(c, run, session, m, r, q);
    }
  }

  // When the re-check passes, what was read is what is there.
  lemma {:induction false} SameWhenChecked(c: Config, run: Run, session: Session, m: nat, r: nat, q: nat)
    requires LegalRun(c, run) && NoReturn(c, run) && m <= |run.steps| && r <= |run.steps| && q <= |run.steps| < |run.states|
    requires From(c, run, session, m, r, q) && session.checked && session.found.Some?
    requires AgreeUpTo(c, run, q)
    ensures var view, f := AppView(c, run, q), session.found.value;
            session.key in view && view[session.key] == Shown(c, f.bytes, f.contentType)
  {
    LegalIsLawful(c, run);
    AlwaysWhole(c, run, m);
    AlwaysWhole(c, run, r);
    AlwaysWhole(c, run, q);
    SessionShows(c, run, session, m, r, q);
    hide LegalRun, AppView, NoReturn, AllWhole, ViewOf, LawfulConfig, ReadsItself, Shown, From;
    var key := session.key;
    assert ViewOf(c, run.states[m].objects) == AppView(c, run, m);
    assert ViewOf(c, run.states[r].objects) == AppView(c, run, r);
    assert ViewOf(c, run.states[q].objects) == AppView(c, run, q);
    ViewHolds(c, run.states[m].objects, key);
    ViewHolds(c, run.states[q].objects, key);
    SameChecksum(c, AppView(c, run, m)[key].bytes, AppView(c, run, q)[key].bytes);
    NoneReturns(c, run, m, r, q, key);
  }

  // What a session holds is what readers saw then.
  lemma SessionShows(c: Config, run: Run, session: Session, m: nat, r: nat, q: nat)
    requires m < |run.states| && r < |run.states| && q < |run.states|
    requires From(c, run, session, m, r, q) && session.checked && session.found.Some?
    requires AllWhole(c, run.states[m].objects) && AllWhole(c, run.states[r].objects) && AllWhole(c, run.states[q].objects)
    ensures m <= r <= q
    ensures var seen := ViewOf(c, run.states[m].objects); session.key in seen && seen[session.key].checksum == session.before.checksum
    ensures var seen, f := ViewOf(c, run.states[r].objects), session.found.value;
            session.key in seen && seen[session.key] == f == Shown(c, f.bytes, f.contentType)
    ensures var seen := ViewOf(c, run.states[q].objects); session.key in seen && seen[session.key].checksum == session.before.checksum
  {
    hide AllWhole, ViewOf, Whole, Reading, MetadataOf;
    ViewHolds(c, run.states[m].objects, session.key);
    ViewHolds(c, run.states[r].objects, session.key);
    ViewHolds(c, run.states[q].objects, session.key);
  }

  lemma SameChecksum(c: Config, a: Bytes, b: Bytes)
    requires LawfulConfig(c) && c.prims.checksum(a) == c.prims.checksum(b)
    ensures a == b
  {
  }

  lemma NoneReturns(c: Config, run: Run, i: nat, j: nat, k: nat, key: Key)
    requires run.states != [] && NoReturn(c, run) && i <= j <= k <= |run.steps| && SameBytes(c, run, i, k, key)
    ensures SameObject(c, run, j, k, key)
  {
    hide SameBytes, SameObject;
  }

  lemma {:induction false} AllFit(c: Config, run: Run, n: nat)
    requires |run.states| == |run.steps| + 1 && LegalRun(c, run) && NoReturn(c, run) && NoneInWindow(run) && n <= |run.steps|
    ensures HistoriesFit(c, run, n)
  {
    hide LegalRun, NoReturn, NoneInWindow, StepFits, HistoryFits, ItsBody, AgreeUpTo;
    if n > 0 {
      AllFit(c, run, n - 1);
      LosesNothingIff(c, run, n - 1);
      WritesWhatIsThere(c, run, n - 1);
      OneMoreFits(c, run, n - 1);
    }
  }

  // Then rotation loses nothing: at every moment readers get exactly what the application has written.
  lemma RotationLosesNothing(c: Config, run: Run, n: nat)
    requires |run.states| == |run.steps| + 1 && LegalRun(c, run) && NoReturn(c, run) && NoneInWindow(run) && n <= |run.steps|
    ensures AgreeUpTo(c, run, n)
  {
    hide LegalRun, NoReturn, NoneInWindow, AgreeUpTo, HistoriesFit;
    AllFit(c, run, n);
    LosesNothingIff(c, run, n);
  }

  lemma NothingYet(c: Config, run: Run)
    requires |run.states| == |run.steps| + 1
    ensures AgreeUpTo(c, run, 0)
  {
  }

  // Each step of a rotation, seen alone, changes nothing for any reader.
  lemma RotationStepInvisible(c: Config, run: Run, k: nat)
    requires |run.states| == |run.steps| + 1 && LegalRun(c, run) && NoReturn(c, run) && NoneInWindow(run)
    requires k < |run.steps| && Rotation(run.steps[k])
    ensures ViewOf(c, run.states[k + 1].objects) == ViewOf(c, run.states[k].objects)
  {
    hide LegalRun, NoReturn, NoneInWindow, ViewOf;
    LegalIsLawful(c, run);
    RotationLosesNothing(c, run, k + 1);
    assert ViewOf(c, run.states[k].objects) == AppView(c, run, k);
  }

  // ----- where it does lose something -------------------------------------------------------

  // Primitives that satisfy the laws.
  const PLAIN := Primitives((x, _, _) => x, (x, _) => Some(x), (key, _, _) => key, (x, _) => Some(x), _ => "", x => x)

  const ONE_TO_TWO := Config(PLAIN, Environment(map[1 := "one", 2 := "two"], map[], map[]), Some(Settings(Symmetric, Some(2))))

  function Of(content: Bytes, contentType: string, version: Version): Stored {
    Stored(content, Some(contentType), Some(content), Some(version), None)
  }

  const ENC := ONE_TO_TWO.encrypt

  // While a turn is in progress the application puts one object, which the turn then reads, and puts
  // the old content back with another content type.
  function Overtaken(content: Bytes, contentType: string, laterType: string): Run {
    var begun := Session("k", Metadata("a", Some(1)), None, false);
    var read := begun.(found := Some(Found(content, contentType, content)));
    var initial, between, later := Of("a", "x", 1), Of(content, contentType, 2), Of("a", laterType, 2);
    Run([ReadMetadata(0, "k"), AppPut("k", content, contentType, ENC, 0), ReadBody(0), AppPut("k", "a", laterType, ENC, 0),
         Recheck(0), WriteBack(0, 0)],
        [State(map["k" := initial], map[]),
         State(map["k" := initial], map[0 := begun]),
         State(map["k" := between], map[0 := begun]),
         State(map["k" := between], map[0 := read]),
         State(map["k" := later], map[0 := read]),
         State(map["k" := later], map[0 := read.(checked := true)]),
         State(map["k" := between], map[])])
  }

  // The application puts an object, or deletes it, between the re-check and the put.
  function InTheWindow(deletes: bool): Run {
    var begun := Session("k", Metadata("a", Some(1)), None, false);
    var read := begun.(found := Some(Found("a", "x", "a")));
    var initial, later := map["k" := Of("a", "x", 1)], if deletes then map[] else map["k" := Of("b", "x", 2)];
    Run([ReadMetadata(0, "k"), ReadBody(0), Recheck(0), if deletes then AppDelete("k") else AppPut("k", "b", "x", ENC, 0),
         WriteBack(0, 0)],
        [State(initial, map[]),
         State(initial, map[0 := begun]),
         State(initial, map[0 := read]),
         State(initial, map[0 := read.(checked := true)]),
         State(later, map[0 := read.(checked := true)]),
         State(map["k" := Of("a", "x", 2)], map[])])
  }

  lemma TurnStarts(content: Bytes, contentType: string, laterType: string, k: nat)
    requires k < 3
    ensures Leads(ONE_TO_TWO, Overtaken(content, contentType, laterType), k)
  {
    var run := Overtaken(content, contentType, laterType);
    assert run.states[k + 1].objects == Do(ONE_TO_TWO, run.states[k], run.steps[k]).objects;
    assert run.states[k + 1].sessions == Do(ONE_TO_TWO, run.states[k], run.steps[k]).sessions;
  }

  lemma TurnEnds(content: Bytes, contentType: string, laterType: string, k: nat)
    requires 3 <= k < 6
    ensures Leads(ONE_TO_TWO, Overtaken(content, contentType, laterType), k)
  {
    var run := Overtaken(content, contentType, laterType);
    assert run.states[k + 1].objects == Do(ONE_TO_TWO, run.states[k], run.steps[k]).objects;
    assert run.states[k + 1].sessions == Do(ONE_TO_TWO, run.states[k], run.steps[k]).sessions;
  }

  lemma OvertakenRun(content: Bytes, contentType: string, laterType: string)
    ensures LegalRun(ONE_TO_TWO, Overtaken(content, contentType, laterType))
  {
    var run := Overtaken(content, contentType, laterType);
    assert LawfulConfig(ONE_TO_TWO) && ReadsItself(ONE_TO_TWO);
    hide Leads, Overtaken;
    assert |run.steps| == 6;
    forall k | 0 <= k < |run.steps| ensures Leads(ONE_TO_TWO, run, k) {
      if k < 3 {
        TurnStarts(content, contentType, laterType, k);
      } else {
        TurnEnds(content, contentType, laterType, k);
      }
    }
  }

  lemma WindowOpens(deletes: bool, k: nat)
    requires k < 3
    ensures Leads(ONE_TO_TWO, InTheWindow(deletes), k)
  {
    var run := InTheWindow(deletes);
    assert run.states[k + 1].objects == Do(ONE_TO_TWO, run.states[k], run.steps[k]).objects;
    assert run.states[k + 1].sessions == Do(ONE_TO_TWO, run.states[k], run.steps[k]).sessions;
  }

  lemma WriteInWindow(deletes: bool)
    ensures Leads(ONE_TO_TWO, InTheWindow(deletes), 3)
  {
    var run := InTheWindow(deletes);
    assert run.states[4].objects == Do(ONE_TO_TWO, run.states[3], run.steps[3]).objects;
  }

  lemma WindowCloses(deletes: bool)
    ensures Leads(ONE_TO_TWO, InTheWindow(deletes), 4)
  {
    var run := InTheWindow(deletes);
    assert run.states[5].objects == Do(ONE_TO_TWO, run.states[4], run.steps[4]).objects;
    assert run.states[5].sessions == Do(ONE_TO_TWO, run.states[4], run.steps[4]).sessions;
  }

  lemma WindowRun(deletes: bool)
    ensures LegalRun(ONE_TO_TWO, InTheWindow(deletes))
  {
    var run := InTheWindow(deletes);
    assert LawfulConfig(ONE_TO_TWO) && ReadsItself(ONE_TO_TWO);
    hide Leads, InTheWindow;
    assert |run.steps| == 5;
    forall k | 0 <= k < |run.steps| ensures Leads(ONE_TO_TWO, run, k) {
      if k < 3 {
        WindowOpens(deletes, k);
      } else if k == 3 {
        WriteInWindow(deletes);
      } else {
        WindowCloses(deletes);
      }
    }
  }

  function OvertakenShows(content: Bytes, contentType: string, laterType: string, k: nat): Found {
    if k < 2 then Found("a", "x", "a") else if k < 4 then Found(content, contentType, content) else Found("a", laterType, "a")
  }

  lemma {:induction false} OvertakenView(content: Bytes, contentType: string, laterType: string, k: nat)
    requires k <= 6
    ensures AppView(ONE_TO_TWO, Overtaken(content, contentType, laterType), k)
            == map["k" := OvertakenShows(content, contentType, laterType, k)]
  {
    var run := Overtaken(content, contentType, laterType);
    if k == 0 {
      assert ViewOf(ONE_TO_TWO, run.states[0].objects) == map["k" := Found("a", "x", "a")];
    } else {
      OvertakenView(content, contentType, laterType, k - 1);
    }
  }

  lemma OvertakenSeen(content: Bytes, contentType: string, laterType: string)
    ensures var run := Overtaken(content, contentType, laterType);
            && |run.states| == |run.steps| + 1 == 7 && Rotation(run.steps[5]) && NoneInWindow(run)
            && ViewOf(ONE_TO_TWO, run.states[6].objects) == map["k" := Found(content, contentType, content)]
  {
  }

  // When bytes do come back, the write brings back what was there in between: readers get "b" where the
  // application has last put "a".
  lemma ReturnLosesContent() returns (run: Run)
    ensures LegalRun(ONE_TO_TWO, run) && |run.states| == |run.steps| + 1 == 7 && Rotation(run.steps[5]) && NoneInWindow(run)
    ensures AppView(ONE_TO_TWO, run, 6) == map["k" := Found("a", "x", "a")]
    ensures ViewOf(ONE_TO_TWO, run.states[6].objects) == map["k" := Found("b", "x", "b")]
  {
    run := Overtaken("b", "x", "x");
    OvertakenRun("b", "x", "x");
    OvertakenView("b", "x", "x", 6);
    OvertakenSeen("b", "x", "x");
    hide LegalRun, AppView, ViewOf, Overtaken, NoneInWindow;
  }

  // The checksum covers the bytes alone: a content type that the application changes while a turn is in
  // progress is put back, though no bytes ever change.
  lemma ContentTypeIsReverted() returns (run: Run)
    ensures LegalRun(ONE_TO_TWO, run) && |run.states| == |run.steps| + 1 == 7 && Rotation(run.steps[5]) && NoneInWindow(run)
    ensures forall i, j | 0 <= i <= 6 && 0 <= j <= 6 :: SameBytes(ONE_TO_TWO, run, i, j, "k")
    ensures AppView(ONE_TO_TWO, run, 6) == map["k" := Found("a", "y", "a")]
    ensures ViewOf(ONE_TO_TWO, run.states[6].objects) == map["k" := Found("a", "x", "a")]
  {
    run := Overtaken("a", "x", "y");
    OvertakenRun("a", "x", "y");
    OvertakenSeen("a", "x", "y");
    hide LegalRun, AppView, ViewOf, Overtaken, NoneInWindow;
    assert |run.steps| == 6;
    forall k: nat | k <= 6 ensures AppView(ONE_TO_TWO, run, k) == map["k" := OvertakenShows("a", "x", "y", k)] {
      OvertakenView("a", "x", "y", k);
    }
  }

  // A put between the re-check and the write is overwritten, and a deleted object comes back.
  lemma WindowLosesWrites(deletes: bool) returns (run: Run)
    ensures LegalRun(ONE_TO_TWO, run) && |run.states| == |run.steps| + 1 == 6 && AppWrites(run.steps[3], "k") && Rotation(run.steps[4])
    ensures ViewOf(ONE_TO_TWO, run.states[4].objects) == if deletes then map[] else map["k" := Found("b", "x", "b")]
    ensures ViewOf(ONE_TO_TWO, run.states[5].objects) == map["k" := Found("a", "x", "a")]
  {
    run := InTheWindow(deletes);
    WindowRun(deletes);
    hide LegalRun, Legal, Do;
  }
}
