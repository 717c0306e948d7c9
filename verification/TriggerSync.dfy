// The trigger layers: how two sets of triggers combine, what a boot does to the persisted entries, and
// what any sequence of boots and edits leaves of them.

module TriggerSync {
  import opened Prelude
  import opened JsonEquality

  // ----- triggers ---------------------------------------------------------------------------

  type Action = Json

  datatype Events = Events(created: Option<seq<Action>>, updated: Option<seq<Action>>, deleted: Option<seq<Action>>)

  datatype Triggers = Triggers(pre: Option<Events>, post: Option<Events>)

  datatype Timing = Pre | Post

  datatype Event = Created | Updated | Deleted

  function ActionsOf(slot: Option<seq<Action>>): seq<Action> {
    if slot.Some? then slot.value else []
  }

  // What runs at one timing of one event.
  function Fires(t: Triggers, timing: Timing, event: Event): seq<Action> {
    var events := if timing.Pre? then t.pre else t.post;
    if events.None? then []
    else match event
      case Created => ActionsOf(events.value.created)
      case Updated => ActionsOf(events.value.updated)
      case Deleted => ActionsOf(events.value.deleted)
  }

  lemma FiresAre(t: Triggers, events: Events, a: seq<Action>, event: Event)
    ensures Fires(t.(pre := Some(events.(created := Some(a)))), Pre, Created) == a
    ensures Fires(t.(pre := Some(events.(updated := Some(a)))), Pre, Updated) == a
    ensures Fires(t.(pre := Some(events.(deleted := Some(a)))), Pre, Deleted) == a
    ensures Fires(t.(post := Some(events.(created := Some(a)))), Post, Created) == a
    ensures Fires(t.(post := Some(events.(updated := Some(a)))), Post, Updated) == a
    ensures Fires(t.(post := Some(events.(deleted := Some(a)))), Post, Deleted) == a
    ensures Fires(t.(pre := None), Pre, event) == [] && Fires(t.(post := None), Post, event) == []
    ensures Fires(t.(pre := Some(Events(None, None, None))), Pre, event) == []
    ensures Fires(t.(post := Some(Events(None, None, None))), Post, event) == []
  {
  }

  function MergeSlot(base: Option<seq<Action>>, extra: Option<seq<Action>>): Option<seq<Action>> {
    var actions := ActionsOf(base) + ActionsOf(extra);
    if actions == [] then None else Some(actions)
  }

  function MergeEvents(base: Option<Events>, extra: Option<Events>): Option<Events> {
    if base.None? && extra.None? then None
    else
      var none := Events(None, None, None);
      var b, e := if base.Some? then base.value else none, if extra.Some? then extra.value else none;
      Some(Events(MergeSlot(b.created, e.created), MergeSlot(b.updated, e.updated), MergeSlot(b.deleted, e.deleted)))
  }

  function MergeTriggers(base: Triggers, extra: Triggers): Triggers {
    Triggers(MergeEvents(base.pre, extra.pre), MergeEvents(base.post, extra.post))
  }

  // Both run, the base first.
  lemma MergedFires(base: Triggers, extra: Triggers, timing: Timing, event: Event)
    ensures Fires(MergeTriggers(base, extra), timing, event) == Fires(base, timing, event) + Fires(extra, timing, event)
  {
    assert forall a: seq<Action> :: a + [] == a && [] + a == a;
  }

  lemma MergeSlotAssociative(a: Option<seq<Action>>, b: Option<seq<Action>>, c: Option<seq<Action>>)
    ensures MergeSlot(MergeSlot(a, b), c) == MergeSlot(a, MergeSlot(b, c))
  {
    var x, y, z := ActionsOf(a), ActionsOf(b), ActionsOf(c);
    assert (x + y) + z == x + (y + z);
    assert x + y == [] ==> x == [] && y == [] && [] + z == z;
    assert y + z == [] ==> y == [] && z == [] && x + [] == x;
  }

  lemma MergeEventsAssociative(a: Option<Events>, b: Option<Events>, c: Option<Events>)
    ensures MergeEvents(MergeEvents(a, b), c) == MergeEvents(a, MergeEvents(b, c))
  {
    hide MergeSlot;
    var none := Events(None, None, None);
    var x, y, z := if a.Some? then a.value else none, if b.Some? then b.value else none, if c.Some? then c.value else none;
    MergeSlotAssociative(x.created, y.created, z.created);
    MergeSlotAssociative(x.updated, y.updated, z.updated);
    MergeSlotAssociative(x.deleted, y.deleted, z.deleted);
    NoneMerged(x);
    NoneMerged(z);
  }

  // Merging with nothing only drops empty arrays, and dropping them twice changes nothing more.
  lemma NoneMerged(e: Events)
    ensures MergeSlot(None, None) == None
    ensures forall slot :: MergeSlot(MergeSlot(None, None), slot) == MergeSlot(None, slot)
    ensures forall slot :: MergeSlot(slot, MergeSlot(None, None)) == MergeSlot(slot, None)
  {
  }

  // Merging leaves a timing out where neither has it, and an event where nothing is to run.
  lemma MergedShape(base: Triggers, extra: Triggers)
    ensures var t := MergeTriggers(base, extra);
            && (t.pre.Some? <==> base.pre.Some? || extra.pre.Some?) && (t.post.Some? <==> base.post.Some? || extra.post.Some?)
            && (t.pre.Some? ==>
                 && (t.pre.value.created.Some? <==> Fires(t, Pre, Created) != [])
                 && (t.pre.value.updated.Some? <==> Fires(t, Pre, Updated) != [])
                 && (t.pre.value.deleted.Some? <==> Fires(t, Pre, Deleted) != []))
            && (t.post.Some? ==>
                 && (t.post.value.created.Some? <==> Fires(t, Post, Created) != [])
                 && (t.post.value.updated.Some? <==> Fires(t, Post, Updated) != [])
                 && (t.post.value.deleted.Some? <==> Fires(t, Post, Deleted) != []))
  {
  }

  lemma MergeAssociative(a: Triggers, b: Triggers, c: Triggers)
    ensures MergeTriggers(MergeTriggers(a, b), c) == MergeTriggers(a, MergeTriggers(b, c))
  {
    hide MergeEvents;
    MergeEventsAssociative(a.pre, b.pre, c.pre);
    MergeEventsAssociative(a.post, b.post, c.post);
  }

  // ----- triggers as they are compared ------------------------------------------------------

  function SlotFields(name: string, slot: Option<seq<Action>>): seq<Field> {
    if slot.None? then [] else [Field(name, Array(slot.value))]
  }

  function EventObject(e: Events): seq<Field> {
    SlotFields("created", e.created) + SlotFields("updated", e.updated) + SlotFields("deleted", e.deleted)
  }

  function EventFields(name: string, events: Option<Events>): seq<Field> {
    if events.None? then [] else [Field(name, Object(EventObject(events.value)))]
  }

  function TriggerObject(t: Triggers): seq<Field> {
    EventFields("pre", t.pre) + EventFields("post", t.post)
  }

  function AsJson(t: Triggers): Json {
    Object(TriggerObject(t))
  }

  predicate Same(a: Triggers, b: Triggers) {
    DeepEqual(AsJson(a), AsJson(b))
  }

  ghost predicate SoundTriggers(t: Triggers) {
    WellFormed(AsJson(t))
  }

  lemma SameIsReflexive(t: Triggers)
    requires SoundTriggers(t)
    ensures Same(t, t)
  {
    DeepEqualIsEquivalence(AsJson(t), AsJson(t), AsJson(t));
  }

  // ----- what the comparison means, slot by slot --------------------------------------------

  // Both absent, or the same actions in the same order, whatever the order of the fields in them.
  ghost predicate SlotsAgree(a: Option<seq<Action>>, b: Option<seq<Action>>) {
    a.Some? == b.Some? &&
    (a.Some? ==> |a.value| == |b.value| && forall i | 0 <= i < |a.value| :: Meaning(a.value[i]) == Meaning(b.value[i]))
  }

  ghost predicate EventsAgree(a: Option<Events>, b: Option<Events>) {
    a.Some? == b.Some? &&
    (a.Some? ==>
       SlotsAgree(a.value.created, b.value.created) && SlotsAgree(a.value.updated, b.value.updated) && SlotsAgree(a.value.deleted, b.value.deleted))
  }

  ghost predicate Agree(a: Triggers, b: Triggers) {
    EventsAgree(a.pre, b.pre) && EventsAgree(a.post, b.post)
  }

  // The field of that name in an object, if there is one.
  ghost function FieldMeaning(fields: seq<Field>, name: string): Option<Value> {
    if name in Fields(fields) then Some(Fields(fields)[name]) else None
  }

  lemma FieldIs(fields: seq<Field>, i: nat)
    requires DistinctNames(fields) && i < |fields|
    ensures FieldMeaning(fields, fields[i].name) == Some(Meaning(fields[i].value))
  {
    PlaceIs(fields, i);
    assert fields[i].name in Names(fields);
  }

  lemma FieldIsNot(fields: seq<Field>, name: string)
    requires forall i | 0 <= i < |fields| :: fields[i].name != name
    ensures FieldMeaning(fields, name) == None
  {
  }

  lemma {:induction false} FieldsDecide(f: seq<Field>, g: seq<Field>)
    requires forall name :: FieldMeaning(f, name) == FieldMeaning(g, name)
    ensures Fields(f) == Fields(g)
  {
    forall name ensures name in Fields(f) <==> name in Fields(g) {
      assert FieldMeaning(f, name) == FieldMeaning(g, name);
    }
    forall name | name in Fields(f) ensures Fields(f)[name] == Fields(g)[name] {
      assert FieldMeaning(f, name) == FieldMeaning(g, name);
    }
  }

  ghost function SlotMeaning(slot: Option<seq<Action>>): Option<Value> {
    if slot.None? then None else Some(Meaning(Array(slot.value)))
  }

  lemma SlotsAgreeIff(a: Option<seq<Action>>, b: Option<seq<Action>>)
    ensures SlotMeaning(a) == SlotMeaning(b) <==> SlotsAgree(a, b)
  {
    if a.Some? && b.Some? {
      var x, y := Meaning(Array(a.value)).items, Meaning(Array(b.value)).items;
      if |a.value| == |b.value| {
        assert forall i | 0 <= i < |a.value| :: x[i] == Meaning(a.value[i]) && y[i] == Meaning(b.value[i]);
        if SlotsAgree(a, b) {
          assert x == y;
        }
      } else {
        assert |x| != |y|;
      }
    }
  }

  lemma JoinedMeaning(f: seq<Field>, g: seq<Field>, name: string)
    requires DistinctNames(f + g)
    ensures DistinctNames(f) && DistinctNames(g)
    ensures FieldMeaning(f + g, name) == if FieldMeaning(f, name).Some? then FieldMeaning(f, name) else FieldMeaning(g, name)
  {
    hide Meaning, Fields, FieldMeaning;
    var all := f + g;
    assert forall i | 0 <= i < |f| :: all[i] == f[i];
    assert forall i | 0 <= i < |g| :: all[|f| + i] == g[i];
    if i :| 0 <= i < |f| && f[i].name == name {
      FieldIs(f, i);
      FieldIs(all, i);
    } else {
      FieldIsNot(f, name);
      if i :| 0 <= i < |g| && g[i].name == name {
        FieldIs(g, i);
        FieldIs(all, |f| + i);
      } else {
        FieldIsNot(g, name);
        FieldIsNot(all, name);
      }
    }
  }

  lemma SlotFieldIs(own: string, slot: Option<seq<Action>>, name: string)
    ensures FieldMeaning(SlotFields(own, slot), name) == if name == own then SlotMeaning(slot) else None
  {
    hide Meaning, Fields, FieldMeaning;
    if slot.Some? && name == own {
      FieldIs(SlotFields(own, slot), 0);
    } else {
      FieldIsNot(SlotFields(own, slot), name);
    }
  }

  lemma SlotsDistinct(e: Events)
    ensures DistinctNames(EventObject(e))
  {
    assert "created"[0] == 'c' && "updated"[0] == 'u' && "deleted"[0] == 'd';
  }

  // The fields of an object of slots, by their names.
  lemma SlotFieldsAre(e: Events, name: string)
    ensures FieldMeaning(EventObject(e), name) ==
              if name == "created" then SlotMeaning(e.created) else if name == "updated" then SlotMeaning(e.updated)
              else if name == "deleted" then SlotMeaning(e.deleted) else None
  {
    hide Meaning, Fields, FieldMeaning, SlotFields, SlotMeaning, DistinctNames;
    assert "created"[0] == 'c' && "updated"[0] == 'u' && "deleted"[0] == 'd';
    SlotsDistinct(e);
    JoinedMeaning(SlotFields("created", e.created) + SlotFields("updated", e.updated), SlotFields("deleted", e.deleted), name);
    JoinedMeaning(SlotFields("created", e.created), SlotFields("updated", e.updated), name);
    SlotFieldIs("created", e.created, name);
    SlotFieldIs("updated", e.updated, name);
    SlotFieldIs("deleted", e.deleted, name);
  }

  ghost function EventsMeaning(events: Option<Events>): Option<Value> {
    if events.None? then None else Some(Record(Fields(EventObject(events.value))))
  }

  lemma EventsAgreeIff(a: Option<Events>, b: Option<Events>)
    ensures EventsMeaning(a) == EventsMeaning(b) <==> EventsAgree(a, b)
  {
    if a.Some? && b.Some? {
      hide Meaning, Fields, EventObject, SlotMeaning, SlotsAgree;
      var d, e := a.value, b.value;
      SlotsAgreeIff(d.created, e.created);
      SlotsAgreeIff(d.updated, e.updated);
      SlotsAgreeIff(d.deleted, e.deleted);
      if EventsAgree(a, b) {
        forall name ensures FieldMeaning(EventObject(d), name) == FieldMeaning(EventObject(e), name) {
          SlotFieldsAre(d, name);
          SlotFieldsAre(e, name);
        }
        FieldsDecide(EventObject(d), EventObject(e));
      } else {
        SlotsDiffer(d, e);
      }
    }
  }

  lemma SlotsDiffer(d: Events, e: Events)
    requires SlotMeaning(d.created) != SlotMeaning(e.created) || SlotMeaning(d.updated) != SlotMeaning(e.updated)
             || SlotMeaning(d.deleted) != SlotMeaning(e.deleted)
    ensures Fields(EventObject(d)) != Fields(EventObject(e))
  {
    hide Meaning, Fields, EventObject, SlotMeaning;
    assert "created"[0] == 'c' && "updated"[0] == 'u' && "deleted"[0] == 'd';
    SlotFieldsAre(d, "created");
    SlotFieldsAre(e, "created");
    SlotFieldsAre(d, "updated");
    SlotFieldsAre(e, "updated");
    SlotFieldsAre(d, "deleted");
    SlotFieldsAre(e, "deleted");
  }

  lemma EventFieldIs(own: string, events: Option<Events>, name: string)
    ensures FieldMeaning(EventFields(own, events), name) == if name == own then EventsMeaning(events) else None
  {
    if events.Some? {
      assert EventFields(own, events) == [Field(own, Object(EventObject(events.value)))];
      assert Meaning(Object(EventObject(events.value))) == Record(Fields(EventObject(events.value)));
    }
    hide Meaning, Fields, FieldMeaning, EventObject;
    if events.Some? && name == own {
      FieldIs(EventFields(own, events), 0);
    } else {
      FieldIsNot(EventFields(own, events), name);
    }
  }

  lemma TimingFieldsAre(t: Triggers, name: string)
    ensures FieldMeaning(TriggerObject(t), name) ==
              if name == "pre" then EventsMeaning(t.pre) else if name == "post" then EventsMeaning(t.post) else None
  {
    hide Meaning, Fields, FieldMeaning, EventObject;
    assert |"pre"| != |"post"|;
    assert DistinctNames(TriggerObject(t));
    JoinedMeaning(EventFields("pre", t.pre), EventFields("post", t.post), name);
    EventFieldIs("pre", t.pre, name);
    EventFieldIs("post", t.post, name);
  }

  // Triggers compare as the same exactly when they agree slot by slot.
  lemma SameIff(a: Triggers, b: Triggers)
    requires SoundTriggers(a) && SoundTriggers(b)
    ensures Same(a, b) <==> Agree(a, b)
  {
    DeepEqualDecides(AsJson(a), AsJson(b));
    var f, g := TriggerObject(a), TriggerObject(b);
    assert Meaning(AsJson(a)) == Record(Fields(f)) && Meaning(AsJson(b)) == Record(Fields(g));
    hide Meaning, Fields, TriggerObject, EventsMeaning, EventsAgree, DeepEqual, WellFormed;
    EventsAgreeIff(a.pre, b.pre);
    EventsAgreeIff(a.post, b.post);
    if Agree(a, b) {
      forall name ensures FieldMeaning(f, name) == FieldMeaning(g, name) {
        TimingFieldsAre(a, name);
        TimingFieldsAre(b, name);
      }
      FieldsDecide(f, g);
    } else {
      TimingFieldsAre(a, "pre");
      TimingFieldsAre(b, "pre");
      TimingFieldsAre(a, "post");
      TimingFieldsAre(b, "post");
    }
  }

  // Some timing and event runs other actions under the one than under the other.
  ghost predicate RunsOther(a: Triggers, b: Triggers) {
    exists timing, event ::
      var x, y := Fires(a, timing, event), Fires(b, timing, event);
      |x| != |y| || exists i | 0 <= i < |x| :: Meaning(x[i]) != Meaning(y[i])
  }

  lemma AgreeRunsAlike(a: Triggers, b: Triggers)
    requires Agree(a, b)
    ensures !RunsOther(a, b)
  {
    hide Meaning;
  }

  // ----- entries and the plan ---------------------------------------------------------------

  type Id = nat

  type Model = string

  datatype Entry = Entry(model: Model, active: bool, isDefault: bool, triggers: Triggers, lastSynced: Option<Triggers>)

  type Entries = map<Id, Entry>

  type Static = map<Model, Triggers>

  // `model` is a unique index of the collection.
  ghost predicate UniqueModels(entries: Entries) {
    forall i, j | i in entries && j in entries && entries[i].model == entries[j].model :: i == j
  }

  predicate Known(entries: Entries, model: Model) {
    exists id | id in entries :: entries[id].model == model
  }

  predicate Orphaned(code: Static, e: Entry) {
    e.isDefault && e.model !in code
  }

  // Nobody has changed the entry since code was last synced into it.
  predicate Untouched(e: Entry) {
    e.lastSynced.Some? && Same(e.triggers, e.lastSynced.value)
  }

  predicate ToResync(code: Static, e: Entry) {
    e.isDefault && e.model in code && Untouched(e) && !Same(code[e.model], e.lastSynced.value)
  }

  datatype Plan = Plan(toDelete: set<Id>, toResync: map<Id, Triggers>, toSeed: map<Model, Triggers>)

  function PlanTriggerSync(code: Static, existing: Entries): Plan {
    Plan(set id | id in existing && Orphaned(code, existing[id]),
         map id | id in existing && ToResync(code, existing[id]) :: code[existing[id].model],
         map model | model in code && !Known(existing, model) :: code[model])
  }

  const NOTHING_TO_DO := Plan({}, map[], map[])

  function Seeded(model: Model, triggers: Triggers): Entry {
    Entry(model, true, true, triggers, Some(triggers))
  }

  function Resynced(e: Entry, triggers: Triggers): Entry {
    e.(triggers := triggers, lastSynced := Some(triggers))
  }

  // ----- what a boot leaves -----------------------------------------------------------------

  // The database gives every inserted entry an id of its own.
  ghost predicate FreshIds(code: Static, entries: Entries, newId: map<Model, Id>) {
    && (forall model | model in code :: model in newId && newId[model] !in entries)
    && (forall a, b | a in newId && b in newId && newId[a] == newId[b] :: a == b)
  }

  // One entry after the deletions and the re-syncs of the plan.
  function Kept(code: Static, e: Entry): Entry {
    if ToResync(code, e) then Resynced(e, code[e.model]) else e
  }

  // Seen from the entries alone: the orphans are gone, those code may change follow the code, the rest
  // are as they were, and every model that had no entry has a seeded one.
  ghost predicate Boots(code: Static, before: Entries, newId: map<Model, Id>, after: Entries) {
    && (forall id | id in before :: if Orphaned(code, before[id]) then id !in after else id in after && after[id] == Kept(code, before[id]))
    && (forall model | model in code && !Known(before, model) ::
          model in newId && newId[model] in after && after[newId[model]] == Seeded(model, code[model]))
    && (forall id | id in after && id !in before ::
          exists model :: model in code && !Known(before, model) && model in newId && newId[model] == id)
  }

  // A model that had no entry has one that is active and holds what code declares, as a default that
  // nobody has changed since.
  lemma SeededIs(code: Static, before: Entries, newId: map<Model, Id>, after: Entries, model: Model)
    requires Boots(code, before, newId, after) && model in code && !Known(before, model)
    ensures model in newId && newId[model] in after
    ensures var e := after[newId[model]];
            && e.model == model && e.active && e.isDefault && e.triggers == code[model] && e.lastSynced == Some(code[model])
  {
    hide Known, Orphaned, ToResync;
  }

  lemma BootKeepsUnique(code: Static, before: Entries, newId: map<Model, Id>, after: Entries)
    requires UniqueModels(before) && FreshIds(code, before, newId) && Boots(code, before, newId, after)
    ensures UniqueModels(after)
  {
    forall i, j | i in after && j in after && after[i].model == after[j].model ensures i == j {
      hide Same, Orphaned, ToResync;
      if i in before && j in before {
        assert before[i].model == before[j].model;
      }
    }
  }

  // Every model that has triggers in code has an entry.
  lemma BootKnowsAll(code: Static, before: Entries, newId: map<Model, Id>, after: Entries, model: Model)
    requires Boots(code, before, newId, after) && model in code
    ensures Known(after, model)
  {
    hide Same, FreshIds;
    if Known(before, model) {
      var id :| id in before && before[id].model == model;
      assert after[id].model == model;
    }
  }

  // After a boot there is nothing left to do.
  lemma BootConverges(code: Static, before: Entries, newId: map<Model, Id>, after: Entries)
    requires Boots(code, before, newId, after) && forall model | model in code :: SoundTriggers(code[model])
    ensures PlanTriggerSync(code, after) == NOTHING_TO_DO
  {
    forall id | id in after ensures !Orphaned(code, after[id]) && !ToResync(code, after[id]) {
      hide Same, SoundTriggers, Known;
      if after[id].model in code {
        SameIsReflexive(code[after[id].model]);
      }
    }
    forall model | model in code ensures Known(after, model) {
      BootKnowsAll(code, before, newId, after, model);
    }
  }

  // ----- any sequence of boots and edits ----------------------------------------------------

  datatype Step =
    | Boot(code: Static, newId: map<Model, Id>)
    | Edit(id: Id, triggers: Triggers)
    | Toggle(id: Id, active: bool)
    | Add(id: Id, entry: Entry)
    | Drop(id: Id)

  datatype Run = Run(steps: seq<Step>, states: seq<Entries>)

  ghost predicate Leads(run: Run, k: nat)
    requires k < |run.steps| && |run.states| == |run.steps| + 1
  {
    var s, t := run.states[k], run.states[k + 1];
    match run.steps[k]
    case Boot(code, newId) => FreshIds(code, s, newId) && Boots(code, s, newId, t)
    case Edit(id, triggers) => id in s && t == s[id := s[id].(triggers := triggers)]
    case Toggle(id, active) => id in s && t == s[id := s[id].(active := active)]
    case Add(id, entry) => id !in s && !Known(s, entry.model) && t == s[id := entry]
    case Drop(id) => t == s - {id}
  }

  ghost predicate LegalRun(run: Run) {
    && |run.states| == |run.steps| + 1
    && UniqueModels(run.states[0])
    && forall k {:trigger run.steps[k]} | 0 <= k < |run.steps| :: Leads(run, k)
  }

  lemma {:induction false} AlwaysUnique(run: Run, k: nat)
    requires LegalRun(run) && k <= |run.steps|
    ensures UniqueModels(run.states[k])
  {
    if k > 0 {
      hide Boots, FreshIds;
      AlwaysUnique(run, k - 1);
      assert Leads(run, k - 1);
      match run.steps[k - 1]
      case Boot(code, newId) => BootKeepsUnique(code, run.states[k - 1], newId, run.states[k]);
      case _ =>
    }
  }

  // Nobody edits, toggles or drops the entry in the steps from i up to j.
  ghost predicate LeftAlone(run: Run, i: nat, j: nat, id: Id) {
    j <= |run.steps| && forall k {:trigger run.steps[k]} | i <= k < j ::
      match run.steps[k]
      case Edit(other, _) => other != id
      case Toggle(other, _) => other != id
      case Drop(other) => other != id
      case _ => true
  }

  ghost predicate NeverOrphaned(run: Run, i: nat, j: nat, model: Model) {
    j <= |run.steps| && forall k {:trigger run.steps[k]} | i <= k < j && run.steps[k].Boot? :: model in run.steps[k].code
  }

  lemma {:induction false} Undisturbed(run: Run, i: nat, j: nat, id: Id)
    requires LegalRun(run) && i <= j <= |run.steps| && id in run.states[i] && LeftAlone(run, i, j, id)
    requires var e := run.states[i][id]; !e.isDefault || (!Untouched(e) && NeverOrphaned(run, i, j, e.model))
    ensures id in run.states[j] && run.states[j][id] == run.states[i][id]
    decreases j
  {
    if i < j {
      hide Same, Known, FreshIds, UniqueModels;
      Undisturbed(run, i, j - 1, id);
      assert Leads(run, j - 1);
    }
  }

  ghost predicate SoundEntry(e: Entry) {
    SoundTriggers(e.triggers) && (e.lastSynced.Some? ==> SoundTriggers(e.lastSynced.value))
  }

  // An entry of its own, or a default one that was edited, stays as it is through any sequence of
  // boots, whatever the code says by then, unless its default is orphaned. Edited means that its triggers
  // no longer agree with those last synced into it.
  lemma EditsSurvive(run: Run, i: nat, j: nat, id: Id)
    requires LegalRun(run) && i <= j <= |run.steps| && id in run.states[i] && LeftAlone(run, i, j, id)
    requires var e := run.states[i][id];
             !e.isDefault ||
             (SoundEntry(e) && (e.lastSynced.None? || !Agree(e.triggers, e.lastSynced.value)) && NeverOrphaned(run, i, j, e.model))
    ensures id in run.states[j] && run.states[j][id] == run.states[i][id]
  {
    hide Same, Agree, SoundTriggers, LegalRun, LeftAlone, NeverOrphaned;
    LegalLengths(run);
    var e := run.states[i][id];
    if e.isDefault && e.lastSynced.Some? {
      SameIff(e.triggers, e.lastSynced.value);
    }
    Undisturbed(run, i, j, id);
  }

  // So a manual edit wins over code for ever: an edit after which some event runs other actions than
  // those last synced is left as it is by every later boot that has the model in code.
  lemma EditWins(run: Run, i: nat, j: nat, id: Id)
    requires LegalRun(run) && i < j <= |run.steps| && run.steps[i].Edit? && run.steps[i].id == id
    requires id in run.states[i] && LeftAlone(run, i + 1, j, id)
    requires var e := run.states[i][id];
             && SoundTriggers(run.steps[i].triggers) && NeverOrphaned(run, i + 1, j, e.model)
             && (e.lastSynced.Some? ==> SoundTriggers(e.lastSynced.value) && RunsOther(run.steps[i].triggers, e.lastSynced.value))
    ensures id in run.states[j] && run.states[j][id] == run.states[i][id].(triggers := run.steps[i].triggers)
  {
    hide Same, Agree, SoundTriggers, RunsOther, NeverOrphaned;
    var e := run.states[i][id];
    assert Leads(run, i);
    if e.lastSynced.Some? && Agree(run.steps[i].triggers, e.lastSynced.value) {
      AgreeRunsAlike(run.steps[i].triggers, e.lastSynced.value);
    }
    hide LegalRun, LeftAlone;
    EditsSurvive(run, i + 1, j, id);
  }

  // What one boot does to an entry, seen from the triggers alone: a default one whose model is no longer
  // in code goes; one whose triggers agree with those last synced, which code no longer does, is
  // overwritten by code; every other one stays as it is.
  lemma BootRule(code: Static, before: Entries, newId: map<Model, Id>, after: Entries, id: Id)
    requires Boots(code, before, newId, after) && id in before && SoundEntry(before[id])
    requires before[id].model in code ==> SoundTriggers(code[before[id].model])
    ensures var e := before[id];
            if e.isDefault && e.model !in code then id !in after
            else
              && id in after
              && after[id] ==
                   if e.isDefault && e.lastSynced.Some? && Agree(e.triggers, e.lastSynced.value) && !Agree(code[e.model], e.lastSynced.value)
                   then e.(triggers := code[e.model], lastSynced := Some(code[e.model]))
                   else e
  {
    var e := before[id];
    if e.isDefault && e.model in code && e.lastSynced.Some? {
      SameIff(e.triggers, e.lastSynced.value);
      SameIff(code[e.model], e.lastSynced.value);
    }
    hide Same, Agree, SoundTriggers, Known;
  }

  // What code last put into a default entry that nobody edits is what the entry holds.
  ghost predicate Follows(e: Entry) {
    e.isDefault && e.lastSynced == Some(e.triggers)
  }

  // Every boot in the steps from i up to j declares the model.
  ghost predicate Declared(run: Run, i: nat, j: nat, model: Model) {
    j <= |run.steps| && forall k {:trigger run.steps[k]} | i <= k < j && run.steps[k].Boot? ::
      model in run.steps[k].code && SoundTriggers(run.steps[k].code[model])
  }

  // Nobody edits or drops the entry; it may be switched off and on.
  ghost predicate Unedited(run: Run, i: nat, j: nat, id: Id) {
    j <= |run.steps| && forall k {:trigger run.steps[k]} | i <= k < j ::
      match run.steps[k]
      case Edit(other, _) => other != id
      case Drop(other) => other != id
      case _ => true
  }

  // What the last boot before j declares, or what held at i when there was none.
  ghost function LastDeclared(run: Run, i: nat, j: nat, model: Model, held: Triggers): Triggers
    requires i <= j && Declared(run, i, j, model)
    decreases j
  {
    if i == j then held
    else match run.steps[j - 1]
      case Boot(code, _) => code[model]
      case _ => LastDeclared(run, i, j - 1, model, held)
  }

  // One boot: the entry holds what the code declares, but for the order of the fields.
  lemma FollowsOneBoot(code: Static, before: Entries, newId: map<Model, Id>, after: Entries, id: Id)
    requires Boots(code, before, newId, after) && id in before && before[id].model in code
    requires Follows(before[id]) && SoundTriggers(before[id].triggers) && SoundTriggers(code[before[id].model])
    ensures id in after && Follows(after[id]) && Same(code[before[id].model], after[id].triggers)
    ensures SoundTriggers(after[id].triggers) && after[id].model == before[id].model
  {
    SameIsReflexive(before[id].triggers);
    SameIsReflexive(code[before[id].model]);
    hide Same, SoundTriggers, Known;
  }

  // A step that is no boot leaves an unedited entry as it is, but for switching it off or on.
  lemma QuietStep(run: Run, i: nat, j: nat, k: nat, id: Id)
    requires LegalRun(run) && Unedited(run, i, j, id) && i <= k < j
    requires !run.steps[k].Boot? && id in run.states[k]
    ensures id in run.states[k + 1]
    ensures run.states[k + 1][id] == run.states[k][id].(active := run.states[k + 1][id].active)
  {
    hide Known, UniqueModels, Boots, FreshIds;
    assert Leads(run, k);
    var step := run.steps[k];
  }

  lemma BootStep(run: Run, k: nat)
    requires LegalRun(run) && k < |run.steps| && run.steps[k].Boot?
    ensures Boots(run.steps[k].code, run.states[k], run.steps[k].newId, run.states[k + 1])
  {
    hide Boots, FreshIds, Known, UniqueModels;
    assert Leads(run, k);
  }

  lemma LegalLengths(run: Run)
    requires LegalRun(run)
    ensures |run.states| == |run.steps| + 1
  {
  }

  ghost predicate Following(declared: Triggers, e: Entry) {
    Follows(e) && SoundTriggers(e.triggers) && Same(declared, e.triggers)
  }

  lemma {:induction false} KeepsFollowing(run: Run, i: nat, j: nat, id: Id)
    requires LegalRun(run) && i <= j <= |run.steps| && id in run.states[i] && Unedited(run, i, j, id)
    requires var e := run.states[i][id]; Follows(e) && SoundTriggers(e.triggers) && Declared(run, i, j, e.model)
    ensures id in run.states[j] && run.states[j][id].model == run.states[i][id].model
    ensures var e := run.states[i][id];
            Following(LastDeclared(run, i, j, e.model, e.triggers), run.states[j][id])
    decreases j
  {
    hide Same, SoundTriggers, LegalRun, Boots, UniqueModels, Known;
    LegalLengths(run);
    if i == j {
      SameIsReflexive(run.states[i][id].triggers);
    } else {
      KeepsFollowing(run, i, j - 1, id);
      if run.steps[j - 1].Boot? {
        BootStep(run, j - 1);
        FollowsOneBoot(run.steps[j - 1].code, run.states[j - 1], run.steps[j - 1].newId, run.states[j], id);
      } else {
        QuietStep(run, i, j, j - 1, id);
      }
    }
  }

  // A default entry that nobody edits follows the code: at every point of a run it is the one entry of
  // its model and holds what the last boot declared, whatever other entries went through.
  lemma {:induction false} FollowsCode(run: Run, i: nat, j: nat, id: Id)
    requires LegalRun(run) && i <= j <= |run.steps| && id in run.states[i] && Unedited(run, i, j, id)
    requires var e := run.states[i][id]; Follows(e) && SoundTriggers(e.triggers) && Declared(run, i, j, e.model)
    ensures var e := run.states[i][id];
            && id in run.states[j]
            && (forall other | other in run.states[j] :: run.states[j][other].model == e.model <==> other == id)
            && Same(LastDeclared(run, i, j, e.model, e.triggers), run.states[j][id].triggers)
  {
    hide Same, SoundTriggers, Declared, LastDeclared, Unedited, LegalRun;
    KeepsFollowing(run, i, j, id);
    AlwaysUnique(run, j);
  }
}
