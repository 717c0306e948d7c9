// The sync of the local store while operations go on, as they do when it is retried after a failure:
// a walk over the local keys in which each copy is a check of the primary, a read of the local object
// and a put, with callers writing in between.

module FallbackRuns {
  import opened Prelude
  import opened FallbackStorage

  datatype Step =
    | Begin                    // the walk over the local keys starts
    | Check(key: Key)          // the primary does not have it
    | Pass(key: Key)           // the primary has it
    | Read                     // the local object is read, if it is still there
    | Copy                     // what was read is put into the primary
    | Abort                    // the sync fails, the next operation starts it again
    | Finish                   // the walk is over, the sync has succeeded
    | AppPut(key: Key, o: Object)
    | AppDelete(key: Key)

  // How far the walk is with one key.
  datatype Turn = Idle | Checked(key: Key) | Found(key: Key, o: Object)

  // `unread` is what the walk has still ahead.
  datatype State = State(local: Objects, primary: Objects, unread: Option<set<Key>>, turn: Turn, synced: bool)

  ghost predicate Legal(s: State, step: Step) {
    match step
    case Begin => !s.synced && s.unread.None?
    case Check(key) => s.unread.Some? && key in s.unread.value && s.turn.Idle? && key !in s.primary
    case Pass(key) => s.unread.Some? && key in s.unread.value && s.turn.Idle? && key in s.primary
    case Read => s.unread.Some? && s.turn.Checked?
    case Copy => s.unread.Some? && s.turn.Found?
    case Abort => s.unread.Some?
    case Finish => s.unread == Some({}) && s.turn.Idle?
    case _ => true
  }

  ghost function Do(s: State, step: Step): State
    requires Legal(s, step)
  {
    match step
    case Begin => s.(unread := Some(set key | key in s.local && !Sidecar(key)))
    case Check(key) => s.(unread := Some(s.unread.value - {key}), turn := Checked(key))
    case Pass(key) => s.(unread := Some(s.unread.value - {key}))
    case Read => s.(turn := if s.turn.key in s.local then Found(s.turn.key, s.local[s.turn.key]) else Idle)
    case Copy => s.(primary := s.primary[s.turn.key := s.turn.o], turn := Idle)
    case Abort => s.(unread := None, turn := Idle)
    case Finish => s.(unread := None, synced := true)
    case AppPut(key, o) => s.(primary := s.primary[key := o])
    case AppDelete(key) => s.(local := s.local - {key}, primary := s.primary - {key})
  }

  predicate SyncStep(step: Step) {
    !step.AppPut? && !step.AppDelete?
  }

  predicate Writes(step: Step, key: Key) {
    (step.AppPut? && step.key == key) || (step.AppDelete? && step.key == key)
  }

  function Logical(s: State): Objects {
    Laid(s.local, s.primary)
  }

  datatype Run = Run(steps: seq<Step>, states: seq<State>)

  ghost predicate Leads(run: Run, k: nat)
    requires k < |run.steps| && |run.states| == |run.steps| + 1
  {
    Legal(run.states[k], run.steps[k]) && run.states[k + 1] == Do(run.states[k], run.steps[k])
  }

  // A run starts with two stores that were never synced.
  ghost predicate LegalRun(run: Run) {
    && |run.states| == |run.steps| + 1
    && run.states[0].unread.None? && run.states[0].turn.Idle? && !run.states[0].synced
    && forall k {:trigger run.steps[k]} | 0 <= k < |run.steps| :: Leads(run, k)
  }

  // Callers are never held up, and a sync that has not succeeded can start.
  lemma CallersGoOn(s: State, key: Key, o: Object)
    ensures Legal(s, AppPut(key, o)) && Logical(Do(s, AppPut(key, o))) == Logical(s)[key := o]
    ensures Legal(s, AppDelete(key)) && Logical(Do(s, AppDelete(key))) == Logical(s) - {key}
    ensures s.unread.None? ==> (Legal(s, Begin) <==> !s.synced)
  {
  }

  // With nothing in between, a key is passed over, or copied, or found gone; and when none is ahead
  // the sync has succeeded. It may fail at any time.
  lemma AloneIsCopied(s: State, key: Key)
    requires s.unread.Some? && s.turn.Idle?
    ensures Legal(s, Abort) && Do(s, Abort) == s.(unread := None)
    ensures s.unread.value == {} ==> Legal(s, Finish) && Do(s, Finish) == s.(unread := None, synced := true)
    ensures key in s.unread.value ==>
              var left := s.(unread := Some(s.unread.value - {key}));
              if key in s.primary then Legal(s, Pass(key)) && Do(s, Pass(key)) == left
              else
                && Legal(s, Check(key)) && Legal(Do(s, Check(key)), Read)
                && var t := Do(Do(s, Check(key)), Read);
                   if key in s.local then Legal(t, Copy) && Do(t, Copy) == left.(primary := s.primary[key := s.local[key]])
                   else t == left
  {
  }

  // ----- a finished sync --------------------------------------------------------------------

  // Every local object is in the primary, still ahead of the walk, or about to be put.
  ghost predicate OnItsWay(s: State) {
    forall key | key in s.local && !Sidecar(key) ::
      || key in s.primary
      || (s.unread.Some? && key in s.unread.value)
      || (!s.turn.Idle? && s.turn.key == key)
  }

  ghost predicate Walked(s: State) {
    (s.unread.Some? ==> OnItsWay(s)) && (s.synced ==> AllCopied(s.local, s.primary))
    && (!s.turn.Idle? ==> s.unread.Some?)
  }

  lemma StepWalks(s: State, step: Step)
    requires Walked(s) && Legal(s, step)
    ensures Walked(Do(s, step))
  {
    hide Sidecar;
  }

  // Once a sync has succeeded, every local object is in the primary for the rest of the run, whatever
  // callers have written meanwhile and write from then on.
  lemma {:induction false} SyncedMeansCopied(run: Run, k: nat)
    requires LegalRun(run) && k <= |run.steps|
    ensures Walked(run.states[k])
    ensures run.states[k].synced ==> AllCopied(run.states[k].local, run.states[k].primary)
  {
    if k > 0 {
      hide Walked, Do, Legal;
      SyncedMeansCopied(run, k - 1);
      assert Leads(run, k - 1) by { var step := run.steps[k - 1]; }
      StepWalks(run.states[k - 1], run.steps[k - 1]);
    }
    WalkedIs(run.states[k]);
  }

  lemma WalkedIs(s: State)
    ensures s.unread.None? && s.turn.Idle? && !s.synced ==> Walked(s)
    ensures Walked(s) && s.synced ==> AllCopied(s.local, s.primary)
  {
  }

  // ----- one copy ---------------------------------------------------------------------------

  // The sync does nothing but read from step i up to k.
  ghost predicate OnlyReads(run: Run, i: nat, k: nat) {
    k <= |run.steps| && forall m {:trigger run.steps[m]} | i < m < k :: !SyncStep(run.steps[m]) || run.steps[m].Read?
  }

  // Step i is the check that the copy in step k belongs to.
  ghost predicate ItsCheck(run: Run, i: nat, k: nat) {
    i < k < |run.steps| && run.steps[i].Check? && run.steps[k].Copy? && OnlyReads(run, i, k)
  }

  lemma {:induction false} CheckedAt(run: Run, k: nat) returns (i: nat)
    requires LegalRun(run) && k <= |run.steps| && !run.states[k].turn.Idle?
    ensures i < k && run.steps[i] == Check(run.states[k].turn.key) && OnlyReads(run, i, k)
  {
    assert Leads(run, k - 1) by { var step := run.steps[k - 1]; }
    SyncedMeansCopied(run, k - 1);
    hide OnItsWay, AllCopied;
    if run.steps[k - 1].Check? {
      i := k - 1;
    } else {
      i := CheckedAt(run, k - 1);
    }
  }

  // What a caller last wrote under the key between the steps i and k.
  function LastWrite(steps: seq<Step>, i: nat, k: nat, key: Key): Option<Step>
    requires k <= |steps|
  {
    if k <= i + 1 then None
    else if Writes(steps[k - 1], key) then Some(steps[k - 1])
    else LastWrite(steps, i, k - 1, key)
  }

  // What the sync can have read of the key that was checked in state `at`.
  ghost predicate ReadOf(at: State, key: Key, turn: Turn) {
    match turn
    case Idle => true
    case Checked(k) => k == key
    case Found(k, o) => k == key && key in at.local && at.local[key] == o
  }

  // The stores as they are when the copy comes to be made.
  lemma {:induction false} Meanwhile(run: Run, i: nat, k: nat, key: Key)
    requires LegalRun(run) && i < k <= |run.steps| && run.steps[i] == Check(key) && OnlyReads(run, i, k)
    ensures var at, now := run.states[i], run.states[k];
            && ReadOf(at, key, now.turn)
            && (key in now.local ==> key in at.local && now.local[key] == at.local[key])
            && match LastWrite(run.steps, i, k, key)
               case None => key !in now.primary && (key in at.local ==> key in now.local)
               case Some(AppPut(_, o)) => key in now.primary && now.primary[key] == o
               case Some(_) => key !in now.local && key !in now.primary
  {
    assert Leads(run, k - 1) by { var step := run.steps[k - 1]; }
    if i < k - 1 {
      Meanwhile(run, i, k - 1, key);
    }
  }

  // Nobody else wrote the key since the check, or the last one to do so put the very object that was
  // there to read.
  ghost predicate CopyFits(run: Run, i: nat, k: nat)
    requires ItsCheck(run, i, k) && |run.states| == |run.steps| + 1
  {
    var key := run.steps[i].key;
    match LastWrite(run.steps, i, k, key)
    case None => true
    case Some(step) => step.AppPut? && key in run.states[i].local && step.o == run.states[i].local[key]
  }

  // A copy changes no answer if and only if no caller wrote the key since its check, or the last such
  // write put the object that the local store held.
  lemma CopyInvisibleIff(run: Run, i: nat, k: nat)
    requires LegalRun(run) && ItsCheck(run, i, k)
    ensures Logical(run.states[k + 1]) == Logical(run.states[k]) <==> CopyFits(run, i, k)
  {
    var key, s := run.steps[i].key, run.states[k];
    Meanwhile(run, i, k, key);
    assert Leads(run, k);
    var o := run.states[i].local[key];
    PutLaid(s.local, s.primary, key, o);
    assert Logical(s)[key := o][key] == o;
    if key in Logical(s) && Logical(s)[key] == o {
      assert Logical(s)[key := o] == Logical(s);
    }
  }

  // Over a whole run: the sync, finished or not, never changes an answer if and only if every copy is
  // of that kind.
  lemma SyncInvisibleIff(run: Run)
    requires LegalRun(run)
    ensures (forall k | 0 <= k < |run.steps| && SyncStep(run.steps[k]) :: Logical(run.states[k + 1]) == Logical(run.states[k])) <==>
              (forall i, k | ItsCheck(run, i, k) :: CopyFits(run, i, k))
  {
    if forall i, k | ItsCheck(run, i, k) :: CopyFits(run, i, k) {
      forall k | 0 <= k < |run.steps| && SyncStep(run.steps[k]) ensures Logical(run.states[k + 1]) == Logical(run.states[k]) {
        assert Leads(run, k);
        if run.steps[k].Copy? {
          var i := CheckedAt(run, k);
          CopyInvisibleIff(run, i, k);
        }
      }
    } else {
      var i, k :| ItsCheck(run, i, k) && !CopyFits(run, i, k);
      CopyInvisibleIff(run, i, k);
    }
  }

  // Otherwise a retried sync can bring back an object that was deleted after it was checked.
  lemma DeletedComesBack(key: Key, o: Object) returns (run: Run)
    requires !Sidecar(key)
    ensures LegalRun(run) && |run.steps| == 5 && run.steps[3] == AppDelete(key) && SyncStep(run.steps[4])
    ensures Logical(run.states[4]) == map[] && Logical(run.states[5]) == map[key := o]
  {
    var start := State(map[key := o], map[], None, Idle, false);
    var begun := start.(unread := Some({key}));
    var checked := start.(unread := Some({}), turn := Checked(key));
    var found := checked.(turn := Found(key, o));
    var deleted := State(map[], map[], Some({}), Found(key, o), false);
    var copied := State(map[], map[key := o], Some({}), Idle, false);
    run := Run([Begin, Check(key), Read, AppDelete(key), Copy], [start, begun, checked, found, deleted, copied]);
    assert (set k | k in start.local && !Sidecar(k)) == {key};
    assert {key} - {key} == {};
    assert Do(start, Begin) == begun && Do(begun, Check(key)) == checked && Do(checked, Read) == found;
    assert Do(found, AppDelete(key)) == deleted;
    assert Leads(run, 0) && Leads(run, 1) && Leads(run, 2) && Leads(run, 3) && Leads(run, 4);
  }
}
